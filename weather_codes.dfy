/** The forecast provider's numeric weather codes and the labels the endpoint
    reports for them (the `weather_codes` dictionary of
    `get_weather_forcast`). */
module WeatherCodes {

  /** The label reported for a code the table does not know. */
  const UnknownCode: string := "Unknown code"

  /** The fixed translation table, in the order the dictionary lists it. */
  const Table: map<int, string> := map[
    0 := "Clear sky",
    1 := "Mainly clear",
    2 := "Partly cloudy",
    3 := "Overcast",
    45 := "Fog",
    48 := "Depositing rime fog",
    51 := "Drizzle: Light intensity",
    53 := "Drizzle: Moderate intensity",
    55 := "Drizzle: Dense intensity",
    56 := "Freezing Drizzle: Light intensity",
    57 := "Freezing Drizzle: Dense intensity",
    61 := "Rain: Slight intensity",
    63 := "Rain: Moderate intensity",
    65 := "Rain: Heavy intensity",
    66 := "Freezing Rain: Light intensity",
    67 := "Freezing Rain: Heavy intensity",
    71 := "Snow fall: Slight intensity",
    73 := "Snow fall: Moderate intensity",
    75 := "Snow fall: Heavy intensity",
    77 := "Snow grains",
    80 := "Rain showers: Slight intensity",
    81 := "Rain showers: Moderate intensity",
    82 := "Rain showers: Violent intensity",
    85 := "Snow showers: Slight intensity",
    86 := "Snow showers: Heavy intensity",
    95 := "Thunderstorm: Slight or moderate",
    96 := "Thunderstorm with slight hail",
    99 := "Thunderstorm with heavy hail"
  ]

  /** The codes the table knows, in increasing order. */
  const KnownCodes: seq<int> :=
    [0, 1, 2, 3, 45, 48, 51, 53, 55, 56, 57, 61, 63, 65, 66, 67, 71, 73, 75, 77,
     80, 81, 82, 85, 86, 95, 96, 99]

  predicate Increasing(s: seq<int>) {
    forall i :: 0 < i < |s| ==> s[i - 1] < s[i]
  }

  /** The table's label for a code, or the sentinel for a code it lacks;
      defined on every integer. */
  function Describe(code: int): (name: string)
    ensures code in Table ==> name == Table[code]
    ensures name == UnknownCode <==> code !in Table
  {
    if code in Table then Table[code] else UnknownCode
  }

  lemma {:induction false} IncreasingHeadIsLeast(s: seq<int>, j: int)
    requires Increasing(s) && 0 < j < |s|
    ensures s[0] < s[j]
    decreases j
  {
    if j > 1 {
      IncreasingHeadIsLeast(s, j - 1);
    }
  }

  /** An increasing sequence lists as many distinct values as it has elements. */
  lemma {:induction false} IncreasingIsDistinct(s: seq<int>)
    requires Increasing(s)
    ensures |set x | x in s| == |s|
  {
    if s != [] {
      var tail := s[1..];
      assert Increasing(tail) by {
        forall i | 0 < i < |tail| ensures tail[i - 1] < tail[i] {
          assert tail[i - 1] == s[i] && tail[i] == s[i + 1];
        }
      }
      IncreasingIsDistinct(tail);
      assert s[0] !in tail by {
        forall j | 0 <= j < |tail| ensures tail[j] != s[0] {
          IncreasingHeadIsLeast(s, j + 1);
        }
      }
      assert (set x | x in s) == {s[0]} + (set x | x in tail) by {
        assert s == [s[0]] + tail;
      }
    }
  }

  /** The table has exactly 28 keys, namely those of `KnownCodes`. */
  lemma TableKeys()
    ensures Table.Keys == set c | c in KnownCodes
    ensures |Table| == |KnownCodes| == 28
  {
    assert Increasing(KnownCodes);
    IncreasingIsDistinct(KnownCodes);
  }

  /** The sentinel is not the label of any code, so an unknown code can always be
      told apart from a known one. */
  lemma SentinelIsNotALabel()
    ensures UnknownCode !in Table.Values
  {
  }

  /** No two codes share a label: a label names its code. */
  lemma LabelsAreDistinct(a: int, b: int)
    requires a in Table && b in Table && a != b
    ensures Describe(a) != Describe(b)
  {
  }

  /** Sample lookups: three known codes and an unknown one. */
  lemma SampleLabels()
    ensures Describe(0) == "Clear sky"
    ensures Describe(61) == "Rain: Slight intensity"
    ensures Describe(99) == "Thunderstorm with heavy hail"
    ensures Describe(102) == UnknownCode && Describe(-1) == UnknownCode
  {
  }
}
