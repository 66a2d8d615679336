/** The picker session (`His`): the query, the selected command and the
    terminal size, updated pass by pass. Each pass recomputes the matches,
    selects the first one, draws the screen and reads one key; Enter ends
    the session with the command to run, if any. The terminal is replaced
    by its inputs (one size and one key per pass) and its output (the
    records each pass draws). */
module Picker {
  import opened Text
  import opened Keys
  import opened Matching
  import opened History
  import opened Icons
  import opened GlyphTable
  import opened Screen
  import opened Filtering

  /** The terminal size `getmaxyx` reports at the start of a pass. */
  datatype Size = Size(rows: int, cols: int)

  /** What a key did: keep editing, or leave the loop. */
  datatype Step = Continue | Stop(exit: Exit)

  // ----- the session as a function of its keys -----

  /** How a session over `history` that starts with query `input` ends when
      the user presses `keys`: at the first Enter, with the query and the
      selection of that moment; None while no Enter has come. */
  function Session(matchStart: bool, history: seq<string>, input: string, keys: seq<int>): (exit: Option<Exit>)
    ensures exit.Some? <==> 0 < Presses(keys) && IsEnter(keys[Presses(keys) - 1])
    decreases |keys|
  {
    if keys == [] then None
    else if IsEnter(keys[0]) then Some(OnEnter(input, Selected(Matches(matchStart, input, history))))
    else
      assert Presses(keys) == 1 + Presses(keys[1..]);
      Session(matchStart, history, Edit(input, keys[0]), keys[1..])
  }

  /** How many keys a session reads: up to and including the first Enter. */
  function Presses(keys: seq<int>): (n: nat)
    ensures n <= |keys|
    ensures n == |keys| || (n > 0 && IsEnter(keys[n - 1]))
    ensures forall k :: 0 <= k < n - 1 ==> !IsEnter(keys[k])
    decreases |keys|
  {
    if keys == [] then 0
    else if IsEnter(keys[0]) then 1
    else 1 + Presses(keys[1..])
  }

  /** What a pass draws for query `input` on a terminal `rows` high. */
  function Drawn(matchStart: bool, showIcons: bool, history: seq<string>, input: string, rows: int): seq<Draw>
    requires rows >= 1
  {
    Frame(Matches(matchStart, input, history), input, rows, showIcons, ColorIds)
  }

  /** `frames[k]` is what pass `k` draws: the screen for the query typed
      before key `k`, on the terminal size of that pass. */
  ghost predicate ShowsQueries(matchStart: bool, showIcons: bool, history: seq<string>, start: string,
                               keys: seq<int>, sizes: seq<Size>, frames: seq<seq<Draw>>)
  {
    && |frames| <= |keys| && |frames| <= |sizes|
    && forall k :: 0 <= k < |frames| ==>
         (sizes[k].rows >= 1
          && frames[k] == Drawn(matchStart, showIcons, history, Replay(start, keys[..k]), sizes[k].rows))
  }

  /** Appending the next pass's screen keeps `ShowsQueries`. */
  lemma ShowsNextQuery(matchStart: bool, showIcons: bool, history: seq<string>, start: string,
                       keys: seq<int>, sizes: seq<Size>, frames: seq<seq<Draw>>, frame: seq<Draw>)
    requires ShowsQueries(matchStart, showIcons, history, start, keys, sizes, frames)
    requires |frames| < |keys| && |frames| < |sizes| && sizes[|frames|].rows >= 1
    requires frame == Drawn(matchStart, showIcons, history, Replay(start, keys[..|frames|]), sizes[|frames|].rows)
    ensures ShowsQueries(matchStart, showIcons, history, start, keys, sizes, frames + [frame])
  {
  }

  /** The selection, size and key of pass `n` of a run that started with
      query `start`: the selection of the query typed before key `n - 1`,
      the size of that pass and that key. */
  ghost predicate AfterPass(matchStart: bool, history: seq<string>, start: string, keys: seq<int>, sizes: seq<Size>,
                            n: nat, command: string, rows: int, cols: int, ch: int)
  {
    && 0 < n <= |keys| && n <= |sizes|
    && command == Selected(Matches(matchStart, Replay(start, keys[..n - 1]), history))
    && rows == sizes[n - 1].rows && cols == sizes[n - 1].cols && ch == keys[n - 1]
  }

  /** Where a run that started with query `start` stands before pass `i`:
      the query is what keys `0..i` produced, the session still to come ends
      as the whole session does, `i` of the keys it reads are read, and one
      screen per pass has been drawn for the query of that pass. */
  ghost predicate Progress(matchStart: bool, showIcons: bool, history: seq<string>, start: string,
                           keys: seq<int>, sizes: seq<Size>, i: nat, input: string, frames: seq<seq<Draw>>)
  {
    && i <= |keys|
    && input == Replay(start, keys[..i])
    && Session(matchStart, history, input, keys[i..]) == Session(matchStart, history, start, keys)
    && Presses(keys) == i + Presses(keys[i..])
    && |frames| == i
    && ShowsQueries(matchStart, showIcons, history, start, keys, sizes, frames)
  }

  /** A run starts at pass 0 with the query it was given and no screens. */
  lemma RunBegins(matchStart: bool, showIcons: bool, history: seq<string>, start: string,
                  keys: seq<int>, sizes: seq<Size>)
    ensures Progress(matchStart, showIcons, history, start, keys, sizes, 0, start, [])
  {
    assert keys[..0] == [] && keys[0..] == keys;
  }

  /** A run whose passes read every key without meeting Enter ends with no
      command, having read all the keys, and with the query they produced. */
  lemma RunCompletes(matchStart: bool, showIcons: bool, history: seq<string>, start: string,
                     keys: seq<int>, sizes: seq<Size>, input: string, frames: seq<seq<Draw>>)
    requires Progress(matchStart, showIcons, history, start, keys, sizes, |keys|, input, frames)
    ensures Session(matchStart, history, start, keys) == None
    ensures Presses(keys) == |keys|
    ensures input == Replay(start, keys)
  {
    assert keys[..|keys|] == keys && keys[|keys|..] == [];
  }

  /** Everything one pass of `run` moves forward, stated on the values the
      pass reads and writes: the fields are those of pass `i + 1`, and either
      the run goes on to pass `i + 1`, or it ends on Enter with the session's
      outcome, `i + 1` keys read, the query left as it was and the screen of
      this pass appended. */
  lemma PassAdvances(matchStart: bool, showIcons: bool, history: seq<string>, start: string,
                     keys: seq<int>, sizes: seq<Size>, frames: seq<seq<Draw>>, i: nat,
                     query: string, frame: seq<Draw>, step: Step, input: string,
                     command: string, rows: int, cols: int, ch: int)
    requires i < |keys| && i < |sizes| && sizes[i].rows >= 1
    requires Progress(matchStart, showIcons, history, start, keys, sizes, i, query, frames)
    requires frame == Drawn(matchStart, showIcons, history, query, sizes[i].rows)
    requires command == Selected(Matches(matchStart, query, history))
    requires rows == sizes[i].rows && cols == sizes[i].cols && ch == keys[i]
    requires IsEnter(keys[i]) ==> input == query && step == Stop(OnEnter(query, command))
    requires !IsEnter(keys[i]) ==> step == Continue && input == Edit(query, keys[i])
    ensures AfterPass(matchStart, history, start, keys, sizes, i + 1, command, rows, cols, ch)
    ensures step.Continue? ==>
      Progress(matchStart, showIcons, history, start, keys, sizes, i + 1, input, frames + [frame])
    ensures step.Stop? ==>
      && Session(matchStart, history, start, keys) == Some(step.exit)
      && Presses(keys) == i + 1
      && input == Replay(start, keys[..i])
      && |frames + [frame]| == i + 1
      && ShowsQueries(matchStart, showIcons, history, start, keys, sizes, frames + [frame])
  {
    SessionStep(matchStart, history, query, keys, i);
    ReplayStep(start, keys, i);
    ShowsNextQuery(matchStart, showIcons, history, start, keys, sizes, frames, frame);
    assert keys[..i + 1][..i] == keys[..i];
  }

  /** The session ends at the first Enter, with the query typed so far: it
      runs nothing when that query is empty, and otherwise the first entry
      the query selects ("" when none does). */
  lemma {:induction false} SessionEndsAtFirstEnter(matchStart: bool, history: seq<string>, input: string, keys: seq<int>, e: nat)
    requires e < |keys| && IsEnter(keys[e])
    requires forall k :: 0 <= k < e ==> !IsEnter(keys[k])
    ensures var query := Replay(input, keys[..e]);
      Session(matchStart, history, input, keys) ==
        Some(OnEnter(query, Selected(Matches(matchStart, query, history))))
    decreases e
  {
    if e > 0 {
      var next := Edit(input, keys[0]);
      SessionEndsAtFirstEnter(matchStart, history, next, keys[1..], e - 1);
      ReplayFront(input, keys[..e]);
      assert keys[..e][1..] == keys[1..][..e - 1];
    }
  }

  /** Without an Enter the session goes on. */
  lemma {:induction false} SessionNeedsEnter(matchStart: bool, history: seq<string>, input: string, keys: seq<int>)
    requires forall k :: 0 <= k < |keys| ==> !IsEnter(keys[k])
    ensures Session(matchStart, history, input, keys) == None
    decreases |keys|
  {
    if keys != [] {
      SessionNeedsEnter(matchStart, history, Edit(input, keys[0]), keys[1..]);
    }
  }

  /** Keys after the Enter that ended the session change nothing. */
  lemma {:induction false} SessionIgnoresLaterKeys(matchStart: bool, history: seq<string>, input: string, keys: seq<int>, more: seq<int>)
    requires Session(matchStart, history, input, keys).Some?
    ensures Session(matchStart, history, input, keys + more) == Session(matchStart, history, input, keys)
    decreases |keys|
  {
    assert (keys + more)[0] == keys[0];
    if !IsEnter(keys[0]) {
      SessionIgnoresLaterKeys(matchStart, history, Edit(input, keys[0]), keys[1..], more);
      assert (keys + more)[1..] == keys[1..] + more;
    }
  }

  /** The only command a session can run is a history entry that the final
      query selects, or "" when the query selects nothing. */
  lemma {:induction false} SessionRunsHistoryEntry(matchStart: bool, history: seq<string>, input: string, keys: seq<int>, command: string)
    requires Session(matchStart, history, input, keys) == Some(Exec(command))
    ensures command == "" || command in history
    decreases |keys|
  {
    if IsEnter(keys[0]) {
      var matches := Matches(matchStart, input, history);
      if matches != [] {
        FilterMembers(e => Accepts(matchStart, input, e), history, matches[0]);
      }
    } else {
      SessionRunsHistoryEntry(matchStart, history, Edit(input, keys[0]), keys[1..], command);
    }
  }

  /** Replaying keys one at a time from the front agrees with `Replay`. */
  lemma {:induction false} ReplayFront(input: string, keys: seq<int>)
    requires keys != []
    ensures Replay(input, keys) == Replay(Edit(input, keys[0]), keys[1..])
    decreases |keys|
  {
    if |keys| > 1 {
      var init := keys[..|keys| - 1];
      ReplayFront(input, init);
      assert init[1..] == keys[1..][..|keys| - 2];
    } else {
      assert keys[..0] == [];
    }
  }

  /** One pass of the session, seen from the keys still to come: a key that
      is not Enter moves the query and leaves one key fewer; Enter ends it. */
  lemma SessionStep(matchStart: bool, history: seq<string>, input: string, keys: seq<int>, i: nat)
    requires i < |keys|
    ensures !IsEnter(keys[i]) ==>
      && Session(matchStart, history, Edit(input, keys[i]), keys[i + 1..]) == Session(matchStart, history, input, keys[i..])
      && Presses(keys[i..]) == 1 + Presses(keys[i + 1..])
    ensures IsEnter(keys[i]) ==>
      && Session(matchStart, history, input, keys[i..]) == Some(OnEnter(input, Selected(Matches(matchStart, input, history))))
      && Presses(keys[i..]) == 1
  {
    assert keys[i..][0] == keys[i];
    assert keys[i..][1..] == keys[i + 1..];
  }

  /** The result rows of a pass: label and entry line of every match that
      fits above the prompt, top to bottom. */
  method DrawRows(matches: seq<string>, rows: int, showIcons: bool, colorIds: seq<int>) returns (frame: seq<Draw>)
    requires |colorIds| > 0 && rows >= 1
    ensures frame == ResultRows(matches, VisibleRows(matches, rows), showIcons, colorIds)
  {
    frame := [];
    ghost var n := VisibleRows(matches, rows);
    var i := 0;
    while i < |matches| && i < rows - 1
      invariant 0 <= i <= n
      invariant frame == ResultRows(matches, i, showIcons, colorIds)
    {
      var num := Rank(i + 1);
      var pairId := colorIds[i % |colorIds|] - 1;
      var text := RowText(matches[i], showIcons);
      ResultRowsNext(matches, i, showIcons, colorIds);
      frame := frame + [Print(i, 0, num, LabelPair, true), Print(i, EntryColumn, text, pairId, false)];
      i := i + 1;
    }
    assert i == n;
  }

  /** The text of one result row: glyph of the entry's command word, then
      the entry, or the entry alone when icons are off. */
  method RowText(entry: string, showIcons: bool) returns (text: string)
    ensures text == EntryText(entry, showIcons)
  {
    var prime := SetPrime(entry);
    if showIcons {
      text := " " + Unicode(prime) + " " + entry;
    } else {
      text := " " + entry;
    }
  }

  /** The query after `i + 1` keys is the query after `i` keys, edited by key `i`. */
  lemma ReplayStep(input: string, keys: seq<int>, i: nat)
    requires i < |keys|
    ensures Replay(input, keys[..i + 1]) == Edit(Replay(input, keys[..i]), keys[i])
  {
    assert keys[..i + 1][..i] == keys[..i];
  }

  // ----- the session object -----

  class His {
    var input: string
    var command: string
    var ch: int
    var rows: int
    var cols: int
    const matchStart: bool
    const showIcons: bool
    var colorIds: seq<int>

    /** The palette is the one the constructor sets up. */
    ghost predicate Valid()
      reads this
    {
      colorIds == ColorIds
    }

    /** A new session: empty query, nothing selected, pairs 1..8 registered. */
    constructor (matchStart: bool, showIcons: bool)
      ensures Valid()
      ensures this.matchStart == matchStart && this.showIcons == showIcons
      ensures input == "" && command == "" && ch == 0 && rows == 0 && cols == 0
    {
      this.matchStart := matchStart;
      this.showIcons := showIcons;
      var ids: seq<int> := [];
      for i := 0 to 8
        invariant |ids| == i
        invariant forall k :: 0 <= k < i ==> ids[k] == k + 1
      {
        ids := ids + [i + 1];
      }
      colorIds := ids;
      input, command := "", "";
      ch, rows, cols := 0, 0, 0;
    }

    /** `get_matches`: the suggestions that pass the mode's test, in order.
        Prefix mode tests the field `input`, contains mode the argument. */
    method GetMatches(query: string, suggestions: seq<string>) returns (matches: seq<string>)
      ensures matches == Matches(matchStart, if matchStart then input else query, suggestions)
    {
      matches := [];
      for i := 0 to |suggestions|
        invariant matches == Matches(matchStart, if matchStart then input else query, suggestions[..i])
      {
        assert suggestions[..i + 1][..i] == suggestions[..i];
        var word := suggestions[i];
        if !matchStart {
          if Find(word, query).Some? {
            matches := matches + [word];
          }
        } else {
          if Find(word, input) == Some(0) {
            matches := matches + [word];
          }
        }
      }
      assert suggestions[..|suggestions|] == suggestions;
    }

    /** One pass up to the key read: take the terminal size, recompute the
        matches, select the first one and draw the screen. */
    method Redraw(size: Size, suggestions: seq<string>) returns (frame: seq<Draw>)
      requires Valid() && size.rows >= 1
      modifies this`rows, this`cols, this`command
      ensures Valid() && rows == size.rows && cols == size.cols
      ensures command == Selected(Matches(matchStart, input, suggestions))
      ensures frame == Drawn(matchStart, showIcons, suggestions, input, rows)
    {
      rows, cols := size.rows, size.cols;
      var matches := GetMatches(input, suggestions);
      if |matches| > 0 {
        command := matches[0];
      } else {
        command := "";
      }
      var rowsFrame := DrawRows(matches, rows, showIcons, colorIds);
      frame := rowsFrame + [Print(rows - 1, 0, Prompt + input, PromptPair, true), Cursor(rows - 1, |Prompt| + |input|)];
    }

    /** The rest of the pass: react to the key read. */
    method HandleKey(key: int) returns (step: Step)
      modifies this`input, this`ch
      ensures ch == key
      ensures IsEnter(key) ==> input == old(input) && step == Stop(OnEnter(input, command))
      ensures !IsEnter(key) ==> input == Edit(old(input), key) && step == Continue
    {
      ch := key;
      if ch == '\n' as int || ch == KeyEnter {
        if input != "" {
          step := Stop(Exec(command));
        } else {
          step := Stop(NoExec);
        }
        return;
      }
      if ch == KeyBackspace || ch == Delete || ch == CtrlH {
        if input != "" {
          input := input[..|input| - 1];
        }
      } else if IsPrintable(ch) {
        input := input + [ch as char];
      }
      step := Continue;
    }

    /** One whole pass of the loop: draw, then react to the key read. */
    method Pass(size: Size, suggestions: seq<string>, key: int) returns (frame: seq<Draw>, step: Step)
      requires Valid() && size.rows >= 1
      modifies this`input, this`command, this`rows, this`cols, this`ch
      ensures Valid()
      ensures rows == size.rows && cols == size.cols && ch == key
      ensures command == Selected(Matches(matchStart, old(input), suggestions))
      ensures frame == Drawn(matchStart, showIcons, suggestions, old(input), size.rows)
      ensures IsEnter(key) ==>
        input == old(input) && step == Stop(OnEnter(old(input), command))
      ensures !IsEnter(key) ==> step == Continue && input == Edit(old(input), key)
    {
      frame := Redraw(size, suggestions);
      step := HandleKey(key);
    }

    /** `run`: load the history, then pass after pass until Enter. `exit` is
        None when the keys ran out first: the model then stops at the head of
        the loop, before the next pass reads the size, selects and draws. */
    method Run(lines: seq<string>, sizes: seq<Size>, keys: seq<int>) returns (exit: Option<Exit>, frames: seq<seq<Draw>>)
      requires Valid()
      requires |sizes| == |keys|
      requires forall k :: 0 <= k < |sizes| ==> sizes[k].rows >= 1
      modifies this`input, this`command, this`rows, this`cols, this`ch
      ensures Valid()
      ensures exit == Session(matchStart, Suggestions(lines), old(input), keys)
      ensures |frames| == Presses(keys)
      ensures ShowsQueries(matchStart, showIcons, Suggestions(lines), old(input), keys, sizes, frames)
      ensures exit.None? ==> input == Replay(old(input), keys)
      ensures exit.Some? ==> 0 < Presses(keys) && input == Replay(old(input), keys[..Presses(keys) - 1])
      ensures keys == [] ==> unchanged(this)
      ensures keys != [] ==>
        AfterPass(matchStart, Suggestions(lines), old(input), keys, sizes, Presses(keys), command, rows, cols, ch)
    {
      var suggestions := LoadSuggestions(lines);
      ghost var start := input;
      exit, frames := None, [];
      RunBegins(matchStart, showIcons, suggestions, start, keys, sizes);
      var i := 0;
      while i < |keys|
        invariant 0 <= i <= |keys|
        invariant Valid() && exit.None?
        invariant Progress(matchStart, showIcons, suggestions, start, keys, sizes, i, input, frames)
        invariant i == 0 ==> unchanged(this)
        invariant i > 0 ==> AfterPass(matchStart, suggestions, start, keys, sizes, i, command, rows, cols, ch)
      {
        ghost var query := input;
        var frame, step := Pass(sizes[i], suggestions, keys[i]);
        PassAdvances(matchStart, showIcons, suggestions, start, keys, sizes, frames, i,
                     query, frame, step, input, command, rows, cols, ch);
        frames := frames + [frame];
        if step.Stop? {
          exit := Some(step.exit);
          break;
        }
        i := i + 1;
      }
      if exit.None? {
        RunCompletes(matchStart, showIcons, suggestions, start, keys, sizes, input, frames);
      }
    }
  }
}
