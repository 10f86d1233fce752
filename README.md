# Weather dashboard: recent searches, nearest hour, background theme, temperature display

This project models the self-contained logic of a browser weather dashboard (`app.js`) and proves properties of it in Dafny:

- **Recent searches** (`recent_searches.dfy`, module `RecentSearches`). The dashboard keeps a list of recently searched cities in durable storage. Saving a city removes every entry that names the same city in any letter case. It then puts the city in front, cuts the list to `MaxRecent` = 6 entries, stores it and rebuilds the dropdown. An empty name does nothing. Class `RecentStore` holds the stored list (`stored`) and the dropdown state. `SaveRecent` and `RenderRecent` update them. The pure function `Saved` specifies one save, and `SaveAll` specifies a series of saves. Lemmas prove the front, bound, order, idempotence, move-to-front and most-recent-six properties.
- **Nearest hourly slot** (`nearest_hour.dfy`, module `HourlyLookup`). A linear scan over the hourly timestamps. It keeps the index whose distance to the current time is strictly smallest, so ties go to the earliest index. An empty series gives 0.
- **Background theme** (`background.dfy`, module `Background`). The weather code is mapped to a weather family. Hail overrides the rain family for the freezing codes. A day or night prefix comes from the local hour. Class `Body` holds the page body's class list. `UpdateBackground` removes the fourteen background classes and adds the chosen one.
- **Temperature display** (`temperature.dfy`, module `Temperature`). A Celsius reading is rounded, or converted to Fahrenheit and then rounded, depending on the unit toggle.

Inputs that the original reads from the environment are parameters here:
- the hour of day, given as an integer;
- the timestamps, given as integer milliseconds;
- the selected unit, given as a string;
- the stored list, held as a field.

## Model

| member | source | states |
|---|---|---|
| `RecentSearches.SameCity` | app.js:115 | reference definition (no contract of its own) of the case-insensitive match that `c.toLowerCase() !== city.toLowerCase()` negates; `SameCityAsEmpty`, `WithoutSameCity` and the `WithoutCity*` lemmas state its use |
| `RecentSearches.Lower` | app.js:115 | lower-casing keeps the length of a name |
| `RecentSearches.LowerHasNoUpper` | app.js:115 | a lower-cased name contains no upper-case ASCII letter |
| `RecentSearches.LowerIdempotent` | app.js:115 | lower-casing twice is lower-casing once |
| `RecentSearches.SameCityAsEmpty` | app.js:112-115 | only the empty name matches the empty name case-insensitively |
| `RecentSearches.WithoutCity` | app.js:115 | the filter never lengthens the list |
| `RecentSearches.WithoutCityMembers` | app.js:115 | an entry survives the filter exactly when it was in the list and does not name the city in any case |
| `RecentSearches.WithoutCityRemovesAll` | app.js:115 | no surviving entry names the city case-insensitively |
| `RecentSearches.WithoutCityIsSubsequence` | app.js:115 | the surviving entries keep their original relative order |
| `RecentSearches.WithoutAbsentCity` | app.js:115 | filtering out a city that no entry names leaves the list unchanged |
| `RecentSearches.WithoutCityAppend` | app.js:115 | the filter distributes over concatenation |
| `RecentSearches.WithoutSameCity` | app.js:115 | two spellings of one city filter the list identically |
| `RecentSearches.WithoutCityNoDuplicates` | app.js:115 | the filter keeps a list free of case-insensitive duplicates |
| `RecentSearches.WithoutCityKeepsPrefix` | app.js:115 | a leading run of entries not naming the city survives in place |
| `RecentSearches.Saved` | app.js:112-117 | the list update of one save, the reference definition the `Saved*` lemmas are about; an empty name leaves the list as it is, and any other name gives 1 to 6 entries headed by the name |
| `RecentSearches.SavedEmptyIsNoOp` | app.js:112 | saving an empty name leaves the list unchanged |
| `RecentSearches.SavedShape` | app.js:115-117 | after saving a non-empty city: 1 to 6 entries; the city is first; no other entry names it; the rest are the filtered old entries in order, cut to 5 |
| `RecentSearches.SavedKeepsOrder` | app.js:115-117 | after a save, the entries behind the city are a subsequence of the old list |
| `RecentSearches.PrefixIsSubsequence` | app.js:117 | proof helper of `SavedKeepsOrder`, a general sequence fact: cutting a subsequence to a prefix keeps it a subsequence |
| `RecentSearches.SavedTwice` | app.js:115-116 | saving a city and then any spelling of it gives the same list as saving the second spelling once ("Paris" then "paris") |
| `RecentSearches.SavedIdempotent` | app.js:111-120 | saving the same city twice gives the list of saving it once |
| `RecentSearches.SavedPreservesNoDuplicates` | app.js:115-117 | saving keeps a duplicate-free list duplicate-free; a non-empty save also makes it at most 6 long |
| `RecentSearches.SavedPreservesWellFormed` | app.js:111-120 | a list of at most 6 entries without case-insensitive duplicates stays that way after any save |
| `RecentSearches.OnlyOneMatch` | app.js:115 | in a duplicate-free list, an entry naming the city is the only entry that does |
| `RecentSearches.WithoutOnlyMatch` | app.js:115 | in a duplicate-free list, the filter removes exactly the one entry that names the city |
| `RecentSearches.SavedMovesToFront` | app.js:115-116 | saving a city already at position k of a well-formed list moves it to the front, in the new spelling, and keeps the other entries in order |
| `RecentSearches.SavedShiftsFreshPrefix` | app.js:115-117 | saving a city not named among the first k entries shifts them one place back, as far as the bound allows |
| `RecentSearches.DistinctCitiesDropLast` | app.js:111-120 | proof helper of `SaveAllMostRecentFirst`, a general sequence fact: a series of distinct non-empty cities stays so without its last city |
| `RecentSearches.SaveAllStep` | app.js:111-120 | if the list starts with the earlier distinct cities newest first, a save of the next city keeps that shape, one city longer up to 6 |
| `RecentSearches.EarlierCitiesAreFresh` | app.js:115 | proof helper of `SaveAllStep`: no entry of the leading run of earlier distinct cities names the next city |
| `RecentSearches.SaveAllMostRecentFirst` | app.js:111-120 | after saving distinct non-empty cities in turn, the first min(n, 6) entries are those cities, most recent first; the list is at most 6 long |
| `RecentSearches.SaveAllKeepsLastSix` | app.js:111-120 | after saving 6 or more distinct cities, the list is exactly the last 6 of them, newest first |
| `RecentSearches.RecentStore.constructor` | app.js:114 | the store starts from the persisted list, with the dropdown empty and hidden |
| `RecentSearches.RecentStore.SaveRecent` | app.js:111-120 | the stored list becomes `Saved(old list, city)`; an empty city changes nothing; otherwise the dropdown shows the new list |
| `RecentSearches.RecentStore.RenderRecent` | app.js:123-146 | an empty list only hides the dropdown and keeps the old options; otherwise the dropdown is visible and holds the placeholder, then one option per city in order |
| `HourlyLookup.Distance` | app.js:100 | the distance is the absolute difference of the two timestamps |
| `HourlyLookup.FindNearestHourIndex` | app.js:95-107 | an empty series gives 0; otherwise the index is in range, no slot is closer, and every earlier slot is strictly farther (first minimum wins) |
| `HourlyLookup.FirstNearestIsUnique` | app.js:101-104 | at most one index is first nearest, so the scan's result is fully determined |
| `HourlyLookup.FirstNearestExists` | app.js:97-106 | every non-empty series has a first nearest index |
| `HourlyLookup.FiftyMinutesPicksNextHour` | app.js:95-107 | slots at T, T+1h, T+2h queried at T+50min give index 1 |
| `HourlyLookup.TieGoesToEarlierSlot` | app.js:101 | with two slots equally far from the query, index 0 is chosen and index 1 is not |
| `Background.Classify` | app.js:35-44 | hail exactly for 56, 57, 66, 67; rain exactly for the other rain codes; cloudy exactly for 3; fog exactly for 45, 48; snow and thunder exactly for their codes; clear for 0, 1, 2 and every unlisted code |
| `Background.IsDay` | app.js:29-30 | reference definition (no contract of its own) that the background lemmas use: day is 6 <= hour < 18 |
| `Background.ClassName` | app.js:46 | reference definition (no contract of its own) of the template `${prefix}-${bgClass}`; `ClassNamesAreListed` states its fourteen values |
| `Background.BackgroundClass` | app.js:29-46 | reference definition (no contract of its own) of `finalClass`; `BackgroundClassIsKnown`, `HailAtAnyHour`, `UnknownCodeIsClear`, `DayAndNightDiffer` and `UpdateBackground` state its properties |
| `Background.ClassNamesAreListed` | app.js:46-51 | each day/night and family combination builds one of the fourteen literal class names, and all fourteen are built |
| `Background.BackgroundClassIsKnown` | app.js:46-51 | the chosen class is always one of the fourteen background classes |
| `Background.HailAtAnyHour` | app.js:44-46 | hail codes give `bg-day-hail` by day and `bg-night-hail` by night |
| `Background.UnknownCodeIsClear` | app.js:41-46 | a code in no table gives the clear background for the time of day |
| `Background.DayAndNightDiffer` | app.js:29-46 | a day hour and a night hour never give the same class for one code |
| `Background.Body.constructor` | app.js:49 | a body starts with the given class list |
| `Background.Body.UpdateBackground` | app.js:28-56 | afterwards the body holds exactly one background class, the one for the code and hour (day when 6 <= hour < 18); every other class is unchanged |
| `Temperature.Round` | app.js:92 | the result lies within half a unit of the input; exact halves round up |
| `Temperature.RoundIsUnique` | app.js:92 | that half-up bound determines the rounded value |
| `Temperature.RoundOfInteger` | app.js:92 | rounding an integral value gives that value |
| `Temperature.RoundIsMonotone` | app.js:92 | rounding never reverses the order of two values |
| `Temperature.Fahrenheit` | app.js:92 | F - 32 is 9/5 of the Celsius value |
| `Temperature.FormatTemp` | app.js:91-92 | unit "C" gives the nearest integer to the reading; any other unit gives the nearest integer to its Fahrenheit value |
| `Temperature.FormatTempLandmarks` | app.js:91-92 | 0 °C shows as 32, 100 °C as 212 and -40 °C as -40 in Fahrenheit; 100 shows as 100 in Celsius |
| `Temperature.FormatTempCelsius` | app.js:92 | Celsius display is round(t); 2.5 shows as 3 and -2.5 as -2 |
| `Temperature.FormatTempIsMonotone` | app.js:91-92 | a warmer reading never shows a lower number, in either unit |

## Left out

- `RecentStore.SaveRecent`: does not model the three ways `saveRecent` fails on bad stored data; in each the call throws, nothing is stored and `renderRecent` is not called. `saveRecent` does not treat a malformed stored list as empty: `JSON.parse` throws on malformed text (app.js:114), a parsed non-array fails at `filter` (app.js:115), and an array entry that is not a string (such as `1` or `null`) makes `c.toLowerCase()` throw (app.js:115). The stored list is a field of type `seq<string>`, so none of these cases can arise, and `JSON.parse`/`JSON.stringify` and `localStorage` are not modelled.
- `RecentSearches.Lower`: lower-cases only the ASCII letters. JavaScript's `toLowerCase` also lower-cases other Unicode letters, so two non-ASCII names that the browser treats as the same city may be distinct here.
- `RecentStore.SaveRecent`: the only "falsy" city in the model is the empty string. JavaScript would also skip `null` and `undefined`, and a string has no other falsy value.
- `RecentStore.RenderRecent`: the `Array.isArray` guard is not modelled, because the stored value is always a list. DOM element creation becomes a sequence of (value, text) options. The dropdown's state before the first render is not known, so the constructor starts it empty and hidden.
- `HourlyLookup.FindNearestHourIndex`: timestamps are integers. Parsing date strings with `new Date(...).getTime()` is not modelled, and neither is the NaN an invalid date would produce.
- `Background.Body.UpdateBackground`: takes the local hour as an input in place of `new Date(currentTime).getHours()`, whose result depends on the time zone. The body's class list is a set, so the order of class tokens is not modelled.
- `Temperature.FormatTemp`: exact real arithmetic replaces IEEE double arithmetic. Floating-point error in `temp * 9 / 5 + 32`, which can move a value that lies next to a .5 boundary, is not modelled. `Math.round` is modelled as floor(x + 0.5), including its rounding of halves towards +infinity for negative values. The unit is a parameter instead of the global `currentUnit`.
- UI side effects with nothing to prove are not modelled: DOM look-ups, error banner show and clear with its 5-second timer, temperature alert show and hide, and the loader overlay (app.js:7-24, 65-88). The state variables `lastCoords` and `lastCity` (app.js:61-62) are not modelled.
- Weather-code description and icon tables, geocoding, reverse geocoding, suggestions, the weather fetch, rendering of the current and forecast panels, unit toggling and start-up orchestration are not part of this model. They are network I/O and asynchronous orchestration, not part of the recent-list, lookup, background or formatting logic.
