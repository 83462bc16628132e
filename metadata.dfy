/** Capture date and location of one video (`get_video_metadata`). The date is the
    file's formatted modification time; the location is guessed from the file's stem
    against a fixed gazetteer. Both sit in one `try` block, so a failing `os.stat`
    (or date conversion) leaves both absent. */
module Metadata {
  import opened Wrappers
  import opened PyStr
  import opened PyPath

  /** The gazetteer, scanned in this order. */
  const Gazetteer: seq<string> := ["paris", "london", "tokyo", "nyc", "berlin"]

  /** The pair `(date_str, location_str)` the function returns. */
  datatype VideoMetadata = VideoMetadata(date: Option<string>, location: Option<string>)

  /** The first entry of `cities`, in list order, that is a substring of `text`. */
  function FirstCity(cities: seq<string>, text: string): Option<string>
  {
    if cities == [] then None
    else if Contains(text, cities[0]) then Some(cities[0])
    else FirstCity(cities[1..], text)
  }

  /** The location guessed from a stem: the first gazetteer entry found in the
      lower-cased stem, title-cased. */
  function LocationOf(stem: string): Option<string>
  {
    match FirstCity(Gazetteer, Lower(stem))
    case None => None
    case Some(city) => Some(Title(city))
  }

  /** What `get_video_metadata` returns, given the outcome of the stat step
      (`None` when `os.stat`, `fromtimestamp` or `strftime` raises). */
  function MetadataOf(videoPath: string, statDate: Option<string>): VideoMetadata
  {
    match statDate
    case None => VideoMetadata(None, None)
    case Some(date) => VideoMetadata(Some(date), LocationOf(Stem(videoPath)))
  }

  /** `get_video_metadata(video_path)`, with the stat step's formatted date (or its
      failure) given as `statDate`. It never fails: a failing stat step degrades both
      fields to absent. */
  method GetVideoMetadata(videoPath: string, statDate: Option<string>)
    returns (dateStr: Option<string>, locationStr: Option<string>)
    ensures dateStr == statDate
    ensures statDate.None? ==> locationStr.None?
    ensures statDate.Some? ==> locationStr == LocationOf(Stem(videoPath))
    ensures VideoMetadata(dateStr, locationStr) == MetadataOf(videoPath, statDate)
  {
    dateStr := None;
    locationStr := None;
    if statDate.Some? {
      dateStr := statDate;
      var filename := Stem(videoPath);
      var lowered := Lower(filename);
      if exists city :: city in Gazetteer && Contains(lowered, city) {
        for i := 0 to |Gazetteer|
          invariant locationStr == None
          invariant FirstCity(Gazetteer[i..], lowered) == FirstCity(Gazetteer, lowered)
        {
          assert Gazetteer[i..][1..] == Gazetteer[i + 1..];
          if Contains(lowered, Gazetteer[i]) {
            locationStr := Some(Title(Gazetteer[i]));
            break;
          }
        }
      } else {
        FirstCityNone(Gazetteer, lowered);
      }
    }
  }

  /** Entry `i` of `cities` is a substring of `text` and no earlier entry is. */
  predicate FirstMatchAt(cities: seq<string>, text: string, i: int)
  {
    0 <= i < |cities| && Contains(text, cities[i])
    && forall j :: 0 <= j < i ==> !Contains(text, cities[j])
  }

  /** No entry of `cities` is found exactly when the scan finds nothing: the `any()`
      guard in front of the loop never changes the result. */
  lemma {:induction false} FirstCityNone(cities: seq<string>, text: string)
    ensures FirstCity(cities, text).None? <==> forall j :: 0 <= j < |cities| ==> !Contains(text, cities[j])
  {
    if cities != [] {
      FirstCityNone(cities[1..], text);
      assert forall j :: 1 <= j < |cities| ==> cities[j] == cities[1..][j - 1];
    }
  }

  /** The scan returns entry `i` exactly when entry `i` is the first match. */
  lemma {:induction false} FirstCityAt(cities: seq<string>, text: string, i: int)
    ensures FirstCity(cities, text) == Some(cities[i]) <== FirstMatchAt(cities, text, i)
    ensures FirstCity(cities, text).Some? ==> exists k :: FirstMatchAt(cities, text, k) && FirstCity(cities, text) == Some(cities[k])
  {
    if cities != [] && !Contains(text, cities[0]) {
      var rest := cities[1..];
      FirstCityAt(rest, text, i - 1);
      if FirstMatchAt(cities, text, i) {
        assert rest[i - 1] == cities[i];
        forall j | 0 <= j < i - 1 ensures !Contains(text, rest[j]) {
          assert rest[j] == cities[j + 1];
        }
        assert FirstMatchAt(rest, text, i - 1);
      }
      if FirstCity(cities, text).Some? {
        var k :| FirstMatchAt(rest, text, k) && FirstCity(rest, text) == Some(rest[k]);
        forall j | 0 <= j < k + 1 ensures !Contains(text, cities[j]) {
          if j > 0 {
            assert cities[j] == rest[j - 1];
          }
        }
        assert FirstMatchAt(cities, text, k + 1);
      }
    } else if cities != [] {
      assert FirstMatchAt(cities, text, 0);
      if FirstMatchAt(cities, text, i) {
        assert i == 0;
      }
    }
  }

  /** The gazetteer entry at `i` is the first one, in list order, that is a
      substring of the lower-cased stem. */
  predicate IsFirstOccurring(stem: string, i: int)
  {
    FirstMatchAt(Gazetteer, Lower(stem), i)
  }

  /** The location is the title-cased form of the first gazetteer entry, in list
      order, that occurs in the lower-cased stem, and absent when none occurs. */
  lemma LocationRule(stem: string)
    ensures forall i :: IsFirstOccurring(stem, i) ==> LocationOf(stem) == Some(Title(Gazetteer[i]))
    ensures LocationOf(stem).Some? ==> exists i :: IsFirstOccurring(stem, i) && LocationOf(stem) == Some(Title(Gazetteer[i]))
    ensures LocationOf(stem).None? <==> forall i :: 0 <= i < |Gazetteer| ==> !Contains(Lower(stem), Gazetteer[i])
  {
    var text := Lower(stem);
    FirstCityNone(Gazetteer, text);
    forall i | IsFirstOccurring(stem, i) ensures LocationOf(stem) == Some(Title(Gazetteer[i])) {
      assert FirstMatchAt(Gazetteer, text, i);
      FirstCityAt(Gazetteer, text, i);
    }
    if LocationOf(stem).Some? {
      FirstCityAt(Gazetteer, text, 0);
      var k :| FirstMatchAt(Gazetteer, text, k) && FirstCity(Gazetteer, text) == Some(Gazetteer[k]);
      assert IsFirstOccurring(stem, k);
    }
  }

  /** The first two gazetteer entries title-case to `Paris` and `London`. */
  lemma ParisLondonTitles()
    ensures Title("paris") == "Paris" && Title("london") == "London"
  {
    TitleOfLowerWord("paris");
    TitleOfLowerWord("london");
  }

  /** The last three gazetteer entries title-case to `Tokyo`, `Nyc` and `Berlin`:
      `title()` lowers the later letters, so `nyc` gives `Nyc`, not `NYC`. */
  lemma TokyoNycBerlinTitles()
    ensures Title("tokyo") == "Tokyo" && Title("nyc") == "Nyc" && Title("berlin") == "Berlin"
  {
    TitleOfLowerWord("tokyo");
    TitleOfLowerWord("nyc");
    TitleOfLowerWord("berlin");
  }

  /** The gazetteer entry at `i` is found in `text` and no earlier entry is, so the
      scan stops there. */
  lemma FoundFirst(text: string, i: int)
    requires 0 <= i < |Gazetteer| && Contains(text, Gazetteer[i])
    requires forall j :: 0 <= j < i ==> !Contains(text, Gazetteer[j])
    ensures FirstCity(Gazetteer, text) == Some(Gazetteer[i])
  {
    FirstCityAt(Gazetteer, text, i);
  }

  /** The scan of `trip_to_paris_2021` stops at `paris`, the first entry. */
  lemma ParisScan()
    ensures FirstCity(Gazetteer, "trip_to_paris_2021") == Some("paris")
  {
    var text := "trip_to_paris_2021";
    assert text == "trip_to_" + "paris" + "_2021";
    ContainsMiddle("trip_to_", "paris", "_2021");
    FoundFirst(text, 0);
  }

  /** `trip_to_paris_2021` is placed in `Paris`. */
  lemma ParisExample()
    ensures LocationOf("trip_to_paris_2021") == Some("Paris")
  {
    ParisScan();
    assert Lower("trip_to_paris_2021") == "trip_to_paris_2021" by { LowerOfLower("trip_to_paris_2021"); }
    ParisLondonTitles();
  }

  /** The scan of `clip01` finds no entry. */
  lemma NoCityScan()
    ensures FirstCity(Gazetteer, "clip01") == None
  {
    var text := "clip01";
    MissingCharNotContained(text, "paris", 1);
    MissingCharNotContained(text, "london", 1);
    MissingCharNotContained(text, "tokyo", 0);
    MissingCharNotContained(text, "nyc", 0);
    MissingCharNotContained(text, "berlin", 0);
    FirstCityNone(Gazetteer, text);
  }

  /** `clip01` names no gazetteer city, so it has no location. */
  lemma NoCityExample()
    ensures LocationOf("clip01") == None
  {
    NoCityScan();
    LowerOfLower("clip01");
  }

  /** A stem that is just `nyc` is placed in `Nyc`: `title()` lowers the later letters. */
  lemma NycExample()
    ensures LocationOf("nyc") == Some("Nyc")
  {
    MissingCharNotContained("nyc", "paris", 0);
    MissingCharNotContained("nyc", "london", 0);
    MissingCharNotContained("nyc", "tokyo", 0);
    assert OccursAt("nyc", "nyc", 0);
    LowerOfLower("nyc");
    assert FirstCity(Gazetteer, "nyc") == Some("nyc");
    TokyoNycBerlinTitles();
  }

  /** The scan of `berlin_to_paris` stops at `paris`: `paris` comes before `berlin`
      in the gazetteer. */
  lemma ListOrderScan()
    ensures FirstCity(Gazetteer, "berlin_to_paris") == Some("paris")
  {
    var text := "berlin_to_paris";
    assert text == "berlin_to_" + "paris" + "";
    ContainsMiddle("berlin_to_", "paris", "");
    FoundFirst(text, 0);
  }

  /** Gazetteer order wins over position in the name: `berlin_to_paris` is placed
      in `Paris`, not `Berlin`. */
  lemma ListOrderExample()
    ensures LocationOf("berlin_to_paris") == Some("Paris")
  {
    ListOrderScan();
    assert Lower("berlin_to_paris") == "berlin_to_paris" by { LowerOfLower("berlin_to_paris"); }
    ParisLondonTitles();
  }

  /** Case does not matter: a stem `PARIS` is found and placed in `Paris`. */
  lemma UpperCaseExample()
    ensures LocationOf("PARIS") == Some("Paris")
  {
    assert Lower("PARIS") == "paris";
    assert "paris" == "" + "paris" + "";
    ContainsMiddle("", "paris", "");
    FoundFirst("paris", 0);
    ParisLondonTitles();
  }
}
