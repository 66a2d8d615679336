/** The match engine of `get_matches`: which history entries the current
    query selects, in contains mode (`find != npos`) or prefix mode
    (`find == 0`, the `--match-start` flag). */
module Matching {
  import opened Text
  import opened Filtering

  /** The test one entry must pass. */
  function Accepts(matchStart: bool, query: string, entry: string): (ok: bool)
    ensures matchStart ==> (ok <==> IsPrefix(query, entry))
    ensures !matchStart ==> (ok <==> IsSubstring(query, entry))
  {
    FindZeroIffPrefix(entry, query);
    FindFoundIffSubstring(entry, query);
    if matchStart then Find(entry, query) == Some(0) else Find(entry, query).Some?
  }

  /** The entries of `history` the query selects, in history order, duplicates kept. */
  function Matches(matchStart: bool, query: string, history: seq<string>): (r: seq<string>)
    ensures |r| <= |history|
    ensures forall e :: e in r ==> e in history && Accepts(matchStart, query, e)
  {
    var p := e => Accepts(matchStart, query, e);
    FilterKeeps(p, history);
    Filter(p, history)
  }

  /** Where in `history` the selected entries sit. */
  function MatchPositions(matchStart: bool, query: string, history: seq<string>): seq<nat> {
    Positions(e => Accepts(matchStart, query, e), history)
  }

  /** The command Enter would run: the first match, or "" when nothing matches. */
  function Selected(matches: seq<string>): (command: string)
    ensures |matches| > 0 ==> command == matches[0]
    ensures |matches| == 0 ==> command == ""
  {
    if |matches| > 0 then matches[0] else ""
  }

  /** Contains mode keeps exactly the entries that hold the query as a
      contiguous substring: the result picks `history` at increasing
      positions, and a position is picked exactly when its entry contains the
      query. */
  lemma ContainsModeExactly(query: string, history: seq<string>)
    ensures PicksAt(Matches(false, query, history), history, MatchPositions(false, query, history))
    ensures forall j :: 0 <= j < |history| ==>
      (IsSubstring(query, history[j]) <==> j in MatchPositions(false, query, history))
  {
    FilterExactly(e => Accepts(false, query, e), history);
    forall j | 0 <= j < |history| {
      FindFoundIffSubstring(history[j], query);
    }
  }

  /** Prefix mode keeps exactly the entries that start with the query, in
      the same sense. */
  lemma PrefixModeExactly(query: string, history: seq<string>)
    ensures PicksAt(Matches(true, query, history), history, MatchPositions(true, query, history))
    ensures forall j :: 0 <= j < |history| ==>
      (IsPrefix(query, history[j]) <==> j in MatchPositions(true, query, history))
  {
    FilterExactly(e => Accepts(true, query, e), history);
    forall j | 0 <= j < |history| {
      FindZeroIffPrefix(history[j], query);
    }
  }

  /** As sets: an entry is among the matches exactly when it is in the
      history and passes the mode's test. */
  lemma MatchMembers(matchStart: bool, query: string, history: seq<string>, entry: string)
    ensures entry in Matches(matchStart, query, history) <==>
      entry in history && (if matchStart then IsPrefix(query, entry) else IsSubstring(query, entry))
  {
    FilterMembers(e => Accepts(matchStart, query, e), history, entry);
    FindFoundIffSubstring(entry, query);
    FindZeroIffPrefix(entry, query);
  }

  /** The empty query selects the whole history, unchanged, in either mode. */
  lemma EmptyQueryKeepsAll(matchStart: bool, history: seq<string>)
    ensures Matches(matchStart, "", history) == history
  {
    forall e {
      FindEmpty(e);
    }
    FilterAll(e => Accepts(matchStart, "", e), history);
  }

  /** Every entry the prefix test accepts, the contains test accepts too. */
  lemma PrefixImpliesContains(query: string, entry: string)
    requires Accepts(true, query, entry)
    ensures Accepts(false, query, entry)
  {
  }

  /** Prefix mode selects the prefix-matching entries among contains mode's. */
  lemma PrefixWithinContains(query: string, history: seq<string>)
    ensures Matches(true, query, history) ==
      Filter(e => Accepts(true, query, e), Matches(false, query, history))
  {
    FilterNarrow(e => Accepts(false, query, e), e => Accepts(true, query, e), history);
  }

  /** An entry that holds a longer query holds its every prefix (in the same mode). */
  lemma {:induction false} LongerQueryNarrows(matchStart: bool, query: string, c: char, entry: string)
    requires Accepts(matchStart, query + [c], entry)
    ensures Accepts(matchStart, query, entry)
  {
    var longer := query + [c];
    var i := Find(entry, longer).value;
    assert entry[i..i + |query|] == longer[..|query|] == query;
    assert OccursAt(query, entry, i);
    if matchStart {
      assert OccursAt(query, entry, 0);
    }
  }

  /** Typing one more character only removes entries from the matches:
      the new matches are the old ones filtered by the longer query. */
  lemma TypingNarrows(matchStart: bool, query: string, c: char, history: seq<string>)
    ensures Matches(matchStart, query + [c], history) ==
      Filter(e => Accepts(matchStart, query + [c], e), Matches(matchStart, query, history))
  {
    forall e | Accepts(matchStart, query + [c], e)
      ensures Accepts(matchStart, query, e)
    {
      LongerQueryNarrows(matchStart, query, c, e);
    }
    FilterNarrow(e => Accepts(matchStart, query, e), e => Accepts(matchStart, query + [c], e), history);
  }

  /** What Enter runs is the earliest history entry the query selects, or ""
      when none does (history entries are never empty, so "" means no match). */
  lemma {:induction false} SelectedIsFirstMatch(matchStart: bool, query: string, history: seq<string>)
    requires forall k :: 0 <= k < |history| ==> history[k] != ""
    ensures var c := Selected(Matches(matchStart, query, history));
      && (c == "" <==> forall k :: 0 <= k < |history| ==> !Accepts(matchStart, query, history[k]))
      && (c != "" ==> exists j :: (0 <= j < |history| && history[j] == c
            && Accepts(matchStart, query, history[j])
            && forall k :: 0 <= k < j ==> !Accepts(matchStart, query, history[k])))
  {
    var p := e => Accepts(matchStart, query, e);
    FilterExactly(p, history);
    var r, idx := Matches(matchStart, query, history), MatchPositions(matchStart, query, history);
    if |r| > 0 {
      var j := idx[0];
      assert history[j] == r[0] && p(history[j]);
      assert forall m :: 0 <= m < |idx| ==> j <= idx[m];
      forall k | 0 <= k < j
        ensures !Accepts(matchStart, query, history[k])
      {
        assert k !in idx;
      }
    } else {
      forall k | 0 <= k < |history|
        ensures !Accepts(matchStart, query, history[k])
      {
        assert k !in idx;
      }
    }
  }

  /** The history of the worked examples. */
  const ExampleHistory: seq<string> := ["git status", "git commit", "ls -la"]

  /** Worked example: contains mode, query `git`. */
  lemma ContainsExample()
    ensures Matches(false, "git", ExampleHistory) == ["git status", "git commit"]
  {
    var h := ExampleHistory;
    assert h[0] == "git" + " status" && h[1] == "git" + " commit";
    assert OccursAt("git", h[0], 0) && OccursAt("git", h[1], 0);
    assert Find(h[2], "git") == None by {
      assert forall j :: 0 <= j < |h[2]| ==> h[2][j] != 'g';
      forall j: nat ensures !OccursAt("git", h[2], j) {
        if j + 3 <= |h[2]| {
          assert h[2][j..j + 3][0] == h[2][j];
        }
      }
    }
    assert h[..1][..0] == [];
    assert Matches(false, "git", h[..1]) == [h[0]];
    assert h[..2][..1] == h[..1];
    assert Matches(false, "git", h[..2]) == [h[0], h[1]];
    assert h[..3] == h;
  }

  /** Worked example: prefix mode, query `ls`. */
  lemma PrefixExample()
    ensures Matches(true, "ls", ExampleHistory) == ["ls -la"]
  {
    var h := ExampleHistory;
    assert h[2] == "ls" + " -la";
    assert OccursAt("ls", h[2], 0);
    assert h[0][0] == 'g' && h[1][0] == 'g';
    assert !OccursAt("ls", h[0], 0) && !OccursAt("ls", h[1], 0);
    assert h[..1][..0] == [];
    assert Matches(true, "ls", h[..1]) == [];
    assert h[..2][..1] == h[..1];
    assert Matches(true, "ls", h[..2]) == [];
    assert h[..3] == h;
  }

  /** Worked example: prefix mode, query `it`, matches nothing. */
  lemma PrefixNoneExample()
    ensures Matches(true, "it", ExampleHistory) == []
  {
    var h := ExampleHistory;
    assert h[0][0] == 'g' && h[1][0] == 'g' && h[2][0] == 'l';
    assert !OccursAt("it", h[0], 0) && !OccursAt("it", h[1], 0) && !OccursAt("it", h[2], 0);
    assert h[..1][..0] == [];
    assert Matches(true, "it", h[..1]) == [];
    assert h[..2][..1] == h[..1];
    assert Matches(true, "it", h[..2]) == [];
    assert h[..3] == h;
  }
}
