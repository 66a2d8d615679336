/** The history loader (`load_suggestions`): the lines of the history file,
    read one `getline` at a time, with the empty ones dropped. The file is
    given as the sequence of lines `getline` would return. */
module History {
  import opened Filtering

  predicate NonEmpty(line: string) {
    line != ""
  }

  /** The suggestions a history file yields. */
  function Suggestions(lines: seq<string>): (r: seq<string>)
    ensures |r| <= |lines|
    ensures forall line :: line in r ==> line in lines && line != ""
  {
    FilterKeeps(NonEmpty, lines);
    Filter(NonEmpty, lines)
  }

  /** `load_suggestions`: push every non-empty line, in order. */
  method LoadSuggestions(lines: seq<string>) returns (result: seq<string>)
    ensures result == Suggestions(lines)
  {
    result := [];
    var i := 0;
    while i < |lines|
      invariant 0 <= i <= |lines|
      invariant result == Suggestions(lines[..i])
    {
      assert lines[..i + 1][..i] == lines[..i];
      if lines[i] != "" {
        result := result + [lines[i]];
      }
      i := i + 1;
    }
    assert lines[..i] == lines;
  }

  /** The suggestions are exactly the non-empty lines, in file order,
      duplicates kept: they pick `lines` at increasing positions, and a
      position is picked exactly when its line is non-empty. */
  lemma SuggestionsExactly(lines: seq<string>)
    ensures PicksAt(Suggestions(lines), lines, Positions(NonEmpty, lines))
    ensures forall j :: 0 <= j < |lines| ==> (lines[j] != "" <==> j in Positions(NonEmpty, lines))
  {
    FilterExactly(NonEmpty, lines);
  }

  /** No suggestion is empty. */
  lemma SuggestionsNonEmpty(lines: seq<string>)
    ensures forall k :: 0 <= k < |Suggestions(lines)| ==> Suggestions(lines)[k] != ""
  {
    FilterExactly(NonEmpty, lines);
  }

  /** A file with no empty line is taken whole. */
  lemma NoBlankLines(lines: seq<string>)
    requires forall k :: 0 <= k < |lines| ==> lines[k] != ""
    ensures Suggestions(lines) == lines
  {
    FilterAll(NonEmpty, lines);
  }
}
