/**
 * The page background: a theme class chosen from the current weather code and
 * the local hour, written into the class list of the page body.
 *
 * The hour is an input (0..23 in practice); turning the provider's timestamp
 * into a local hour is not part of this model. The body's class list is a set
 * of class names.
 */
module Background {

  /** The weather families a background exists for. */
  datatype Kind = Clear | Cloudy | Fog | Rain | Snow | Thunder | Hail

  function KindName(k: Kind): string {
    match k
    case Clear => "clear"
    case Cloudy => "cloudy"
    case Fog => "fog"
    case Rain => "rain"
    case Snow => "snow"
    case Thunder => "thunder"
    case Hail => "hail"
  }

  const ClearCodes: set<int> := {0, 1, 2}
  const FogCodes: set<int> := {45, 48}
  const RainCodes: set<int> := {51, 53, 55, 56, 57, 61, 63, 65, 66, 67, 80, 81, 82}
  const SnowCodes: set<int> := {71, 73, 75, 77, 85, 86}
  const ThunderCodes: set<int> := {95, 96, 99}
  /** Freezing drizzle and freezing rain: listed with rain, shown as hail. */
  const HailCodes: set<int> := {56, 57, 66, 67}

  /** Every background class the dashboard uses, and removes before adding one. */
  const BgClasses: set<string> := {
    "bg-day-clear", "bg-day-cloudy", "bg-day-rain", "bg-day-snow",
    "bg-day-thunder", "bg-day-fog", "bg-day-hail",
    "bg-night-clear", "bg-night-cloudy", "bg-night-rain", "bg-night-snow",
    "bg-night-thunder", "bg-night-fog", "bg-night-hail"
  }

  /** The weather family of a code: the first listed family the code belongs to,
      clear for a code in none of them, then hail overriding rain. */
  function Classify(code: int): (k: Kind)
    ensures k == Hail <==> code in HailCodes
    ensures k == Rain <==> code in RainCodes - HailCodes
    ensures k == Cloudy <==> code == 3
    ensures k == Fog <==> code in FogCodes
    ensures k == Snow <==> code in SnowCodes
    ensures k == Thunder <==> code in ThunderCodes
    ensures k == Clear <==> code !in RainCodes + FogCodes + SnowCodes + ThunderCodes + {3}
  {
    var base :=
      if code in ClearCodes then Clear
      else if code == 3 then Cloudy
      else if code in FogCodes then Fog
      else if code in RainCodes then Rain
      else if code in SnowCodes then Snow
      else if code in ThunderCodes then Thunder
      else Clear;
    if code in HailCodes then Hail else base
  }

  /** Day is from 06:00 up to, not including, 18:00. */
  predicate IsDay(hour: int) {
    6 <= hour < 18
  }

  /** The class named by a time of day and a weather family. */
  function ClassName(day: bool, k: Kind): string {
    (if day then "bg-day" else "bg-night") + "-" + KindName(k)
  }

  /** The background class for a weather code at a local hour. */
  function BackgroundClass(code: int, hour: int): string {
    ClassName(IsDay(hour), Classify(code))
  }

  /** The names built from a time of day and a family are exactly the fourteen
      listed background classes. */
  lemma ClassNamesAreListed()
    ensures ClassName(true, Clear) == "bg-day-clear"
    ensures ClassName(true, Cloudy) == "bg-day-cloudy"
    ensures ClassName(true, Fog) == "bg-day-fog"
    ensures ClassName(true, Rain) == "bg-day-rain"
    ensures ClassName(true, Snow) == "bg-day-snow"
    ensures ClassName(true, Thunder) == "bg-day-thunder"
    ensures ClassName(true, Hail) == "bg-day-hail"
    ensures ClassName(false, Clear) == "bg-night-clear"
    ensures ClassName(false, Cloudy) == "bg-night-cloudy"
    ensures ClassName(false, Fog) == "bg-night-fog"
    ensures ClassName(false, Rain) == "bg-night-rain"
    ensures ClassName(false, Snow) == "bg-night-snow"
    ensures ClassName(false, Thunder) == "bg-night-thunder"
    ensures ClassName(false, Hail) == "bg-night-hail"
  {
  }

  /** Every class the dashboard picks is one of the fourteen it removes. */
  lemma BackgroundClassIsKnown(code: int, hour: int)
    ensures BackgroundClass(code, hour) in BgClasses
  {
    ClassNamesAreListed();
    var day := IsDay(hour);
    match Classify(code)
    case Clear => assert ClassName(day, Clear) in BgClasses;
    case Cloudy => assert ClassName(day, Cloudy) in BgClasses;
    case Fog => assert ClassName(day, Fog) in BgClasses;
    case Rain => assert ClassName(day, Rain) in BgClasses;
    case Snow => assert ClassName(day, Snow) in BgClasses;
    case Thunder => assert ClassName(day, Thunder) in BgClasses;
    case Hail => assert ClassName(day, Hail) in BgClasses;
  }

  /** Hail codes give a hail background by day and by night. */
  lemma HailAtAnyHour(code: int, hour: int)
    requires code in HailCodes
    ensures BackgroundClass(code, hour) == if IsDay(hour) then "bg-day-hail" else "bg-night-hail"
  {
    ClassNamesAreListed();
  }

  /** A code outside every table is shown as clear. */
  lemma UnknownCodeIsClear(code: int, hour: int)
    requires code !in ClearCodes + FogCodes + RainCodes + SnowCodes + ThunderCodes + {3}
    ensures Classify(code) == Clear
    ensures BackgroundClass(code, hour) == if IsDay(hour) then "bg-day-clear" else "bg-night-clear"
  {
    ClassNamesAreListed();
  }

  /** The class names the two halves of the day produce never coincide. */
  lemma DayAndNightDiffer(code: int, hour1: int, hour2: int)
    requires IsDay(hour1) && !IsDay(hour2)
    ensures BackgroundClass(code, hour1) != BackgroundClass(code, hour2)
  {
    var c1, c2 := BackgroundClass(code, hour1), BackgroundClass(code, hour2);
    assert c1[3] == 'd' && c2[3] == 'n';
  }

  /** The page body, reduced to its list of CSS classes. */
  class Body {
    var classList: set<string>

    constructor (classes: set<string>)
      ensures classList == classes
    {
      classList := classes;
    }

    /** Replaces whatever background class the body has with the one for
        `weatherCode` at `hour`, keeping all other classes. */
    method UpdateBackground(weatherCode: int, hour: int)
      modifies this
      ensures classList == (old(classList) - BgClasses) + {BackgroundClass(weatherCode, hour)}
      ensures classList * BgClasses == {BackgroundClass(weatherCode, hour)}
      ensures classList - BgClasses == old(classList) - BgClasses
    {
      var isDay := hour >= 6 && hour < 18;

      var bgClass := "";
      if weatherCode in {0, 1, 2} {
        bgClass := "clear";
      } else if weatherCode == 3 {
        bgClass := "cloudy";
      } else if weatherCode in {45, 48} {
        bgClass := "fog";
      } else if weatherCode in {51, 53, 55, 56, 57, 61, 63, 65, 66, 67, 80, 81, 82} {
        bgClass := "rain";
      } else if weatherCode in {71, 73, 75, 77, 85, 86} {
        bgClass := "snow";
      } else if weatherCode in {95, 96, 99} {
        bgClass := "thunder";
      } else {
        bgClass := "clear";
      }

      if weatherCode in {56, 57, 66, 67} {
        bgClass := "hail";
      }

      var finalClass := (if isDay then "bg-day" else "bg-night") + "-" + bgClass;
      assert bgClass == KindName(Classify(weatherCode));
      assert finalClass == BackgroundClass(weatherCode, hour);
      BackgroundClassIsKnown(weatherCode, hour);

      classList := classList - BgClasses;
      classList := classList + {finalClass};
    }
  }
}
