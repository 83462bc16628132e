/** The title-card text of `process_video_file`: an optional `Date:` line, an optional
    `Location:` line and the `File:` line, joined with newlines. */
module TitleCard {
  import opened Wrappers
  import opened PyStr

  /** Python truthiness of an `Optional[str]`: `None` and the empty string are false. */
  predicate Truthy(s: Option<string>)
  {
    s.Some? && s.value != ""
  }

  function DateLine(date: string): string { "Date: " + date }

  function LocationLine(location: string): string { "Location: " + location }

  function FileLine(stem: string): string { "File: " + stem }

  /** The lines of the card: the date line when the date is truthy, the location line
      when the location is truthy, then the file line. */
  function TitleLines(date: Option<string>, location: Option<string>, stem: string): seq<string>
  {
    (if Truthy(date) then [DateLine(date.value)] else [])
    + (if Truthy(location) then [LocationLine(location.value)] else [])
    + [FileLine(stem)]
  }

  /** The building of `title_parts` and `title_text`: append the present lines one
      by one, then join them, falling back to the file line alone when the list is
      empty. */
  method ComposeTitle(dateStr: Option<string>, locationStr: Option<string>, filename: string)
    returns (titleParts: seq<string>, titleText: string)
    ensures titleParts == TitleLines(dateStr, locationStr, filename)
    ensures titleText == JoinWith("\n", titleParts)
  {
    titleParts := [];
    if Truthy(dateStr) {
      titleParts := titleParts + [DateLine(dateStr.value)];
    }
    if Truthy(locationStr) {
      titleParts := titleParts + [LocationLine(locationStr.value)];
    }
    titleParts := titleParts + [FileLine(filename)];
    if titleParts != [] {
      titleText := JoinWith("\n", titleParts);
    } else {
      titleText := FileLine(filename);
    }
  }

  /** One line per truthy field plus the file line; the list is never empty, so the
      fallback branch is never taken; the file line comes last, the date line (when
      there is one) first, and the location line (when there is one) just before
      the file line. */
  lemma TitleLinesShape(date: Option<string>, location: Option<string>, stem: string)
    ensures var lines := TitleLines(date, location, stem);
      && |lines| == 1 + (if Truthy(date) then 1 else 0) + (if Truthy(location) then 1 else 0)
      && lines != []
      && lines[|lines| - 1] == FileLine(stem)
      && (Truthy(date) ==> lines[0] == DateLine(date.value))
      && (Truthy(location) ==> lines[|lines| - 2] == LocationLine(location.value))
  {
  }

  /** The card text begins with its first line (the date line when the date is
      truthy) and always ends with the file line. */
  lemma CardEnds(date: Option<string>, location: Option<string>, stem: string)
    ensures var text := JoinWith("\n", TitleLines(date, location, stem));
      && EndsWith(text, FileLine(stem))
      && (Truthy(date) ==> StartsWith(text, DateLine(date.value)))
  {
    var lines := TitleLines(date, location, stem);
    TitleLinesShape(date, location, stem);
    JoinWithEnds("\n", lines);
  }

  /** With neither field truthy the joined card is the file line alone: the same
      text the unreachable fallback would give. */
  lemma BareCard(date: Option<string>, location: Option<string>, stem: string)
    requires !Truthy(date) && !Truthy(location)
    ensures JoinWith("\n", TitleLines(date, location, stem)) == FileLine(stem)
  {
    assert TitleLines(date, location, stem) == [FileLine(stem)];
  }

  /** With both fields truthy the card reads date, location, file, one per line. */
  lemma FullCard(date: string, location: string, stem: string)
    requires date != "" && location != ""
    ensures JoinWith("\n", TitleLines(Some(date), Some(location), stem))
         == DateLine(date) + "\n" + LocationLine(location) + "\n" + FileLine(stem)
  {
    var lines := TitleLines(Some(date), Some(location), stem);
    assert lines == [DateLine(date), LocationLine(location), FileLine(stem)];
    assert lines[1..][1..] == [FileLine(stem)];
    var d, l, f := DateLine(date), LocationLine(location), FileLine(stem);
    assert JoinWith("\n", lines[1..]) == l + "\n" + f;
    assert d + "\n" + (l + "\n" + f) == d + "\n" + l + "\n" + f;
  }
}
