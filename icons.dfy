/** The icon resolver: the leading command word of a history entry
    (`set_prime`, skipping one `sudo`) looked up in a fixed glyph table
    (`unicode`). Glyphs are opaque strings of Nerd Font code points. */
module Icons {
  import opened Text
  import opened GlyphTable

  /** White space for `operator>>` in the classic locale: space, \t, \n, \v, \f, \r. */
  predicate IsSpace(c: char) {
    c == ' ' || '\t' <= c <= '\r'
  }

  predicate AllSpace(s: string) {
    forall k :: 0 <= k < |s| ==> IsSpace(s[k])
  }

  predicate NoSpace(s: string) {
    forall k :: 0 <= k < |s| ==> !IsSpace(s[k])
  }

  /** What is left of the stream after leading white space is skipped. */
  function SkipSpaces(s: string): (r: string)
    ensures |r| <= |s| && r == s[|s| - |r|..]
    ensures AllSpace(s[..|s| - |r|])
    ensures r == [] || !IsSpace(r[0])
  {
    if s != [] && IsSpace(s[0]) then
      var r := SkipSpaces(s[1..]);
      assert s[..|s| - |r|] == [s[0]] + s[1..][..|s| - 1 - |r|];
      SpaceCons(s[0], s[1..][..|s| - 1 - |r|]);
      r
    else
      assert s[..0] == [];
      s
  }

  /** White space in front of white space is white space. */
  lemma SpaceCons(c: char, t: string)
    requires IsSpace(c) && AllSpace(t)
    ensures AllSpace([c] + t)
  {
    assert forall k :: 1 <= k < |t| + 1 ==> ([c] + t)[k] == t[k - 1];
  }

  /** Index of the first white space at or after `i`, or the end of `t`. */
  function WordEnd(t: string, i: nat): (n: nat)
    requires i <= |t|
    ensures i <= n <= |t|
    ensures n == |t| || IsSpace(t[n])
    ensures forall k :: i <= k < n ==> !IsSpace(t[k])
    decreases |t| - i
  {
    if i == |t| || IsSpace(t[i]) then i else WordEnd(t, i + 1)
  }

  /** One word extracted by `>>`, and the unread rest of the stream. */
  datatype Token = Token(word: string, rest: string)

  /** `s` is leading spaces, then the non-empty run of non-space characters
      `w`, then `rest`, which is empty or starts with a space. */
  predicate Splits(s: string, w: string, rest: string) {
    && w != [] && NoSpace(w)
    && (rest == [] || IsSpace(rest[0]))
    && |w| + |rest| <= |s|
    && AllSpace(s[..|s| - |w| - |rest|])
    && s[|s| - |w| - |rest|..] == w + rest
  }

  /** `iss >> word` on the unread stream `s`: None when only white space is
      left (extraction fails and `word` keeps its old value), otherwise the
      first word and the unread rest. */
  function ReadWord(s: string): (t: Option<Token>)
    ensures t.None? <==> AllSpace(s)
    ensures t.Some? ==> Splits(s, t.value.word, t.value.rest)
  {
    var t := SkipSpaces(s);
    if t == [] then
      assert s[..|s|] == s;
      None
    else
      var n := WordEnd(t, 1);
      NotAllSpace(s, t);
      WordPrefix(t, n);
      assert t[..n] + t[n..] == t;
      Some(Token(t[..n], t[n..]))
  }

  /** A stream whose unskipped part is not empty is not all white space. */
  lemma NotAllSpace(s: string, t: string)
    requires |t| <= |s| && t == s[|s| - |t|..]
    requires t != [] && !IsSpace(t[0])
    ensures !AllSpace(s)
  {
    assert s[|s| - |t|] == t[0];
  }

  /** The characters up to `WordEnd` form a word when the first is not a space. */
  lemma WordPrefix(t: string, n: nat)
    requires t != [] && !IsSpace(t[0])
    requires n == WordEnd(t, 1)
    ensures t[..n] != [] && NoSpace(t[..n])
  {
    assert forall k :: 0 <= k < n ==> t[..n][k] == t[k];
  }

  /** The first word of `s`, or "" when it has none. */
  function FirstWord(s: string): (w: string)
    ensures NoSpace(w)
    ensures w == "" <==> AllSpace(s)
  {
    match ReadWord(s)
    case None => ""
    case Some(t) => t.word
  }

  /** `set_prime`: the first word, or the word after a leading `sudo`. When
      `sudo` is the only word the second extraction fails and `sudo` stays. */
  function SetPrime(line: string): (prime: string)
    ensures NoSpace(prime)
    ensures prime == "" <==> AllSpace(line)
  {
    match ReadWord(line)
    case None => ""
    case Some(Token(w, rest)) =>
      if w != "sudo" then w
      else match ReadWord(rest)
        case None => w
        case Some(next) => next.word
  }

  /** Spaces in front of a stream that continues with a non-space (or ends)
      are exactly what `SkipSpaces` removes. */
  lemma {:induction false} SkipSpacesOver(lead: string, x: string)
    requires AllSpace(lead)
    requires x == [] || !IsSpace(x[0])
    ensures SkipSpaces(lead + x) == x
    decreases |lead|
  {
    if lead != [] {
      assert (lead + x)[1..] == lead[1..] + x;
      SkipSpacesOver(lead[1..], x);
    }
  }

  /** A run of non-space characters that ends at `n` (a space or the end)
      is exactly what `WordEnd` finds. */
  lemma WordEndAt(t: string, i: nat, n: nat)
    requires i <= n <= |t|
    requires forall k :: i <= k < n ==> !IsSpace(t[k])
    requires n == |t| || IsSpace(t[n])
    ensures WordEnd(t, i) == n
  {
  }

  /** The converse of `ReadWord`'s contract: a stream made of spaces, a
      non-empty word and a rest that is empty or starts with a space yields
      exactly that word and that rest. */
  lemma ReadWordOf(lead: string, w: string, rest: string)
    requires AllSpace(lead) && w != [] && NoSpace(w)
    requires rest == [] || IsSpace(rest[0])
    ensures ReadWord(lead + w + rest) == Some(Token(w, rest))
  {
    var t := w + rest;
    assert lead + w + rest == lead + t;
    SkipSpacesOver(lead, t);
    WordEndAt(t, 1, |w|);
    assert t[..|w|] == w && t[|w|..] == rest;
  }

  /** The resolved word is a single word, empty only for a blank line; it is
      the first word unless that word is `sudo`. */
  lemma SetPrimeWord(line: string)
    ensures NoSpace(SetPrime(line))
    ensures SetPrime(line) == "" <==> AllSpace(line)
    ensures FirstWord(line) != "sudo" ==> SetPrime(line) == FirstWord(line)
  {
    match ReadWord(line)
    case None =>
    case Some(Token(w, rest)) =>
      match ReadWord(rest)
      case None =>
      case Some(next) =>
  }

  /** A single space-like character in front of the stream is skipped. */
  lemma ReadWordSkipsSpace(c: char, s: string)
    requires IsSpace(c)
    ensures ReadWord([c] + s) == ReadWord(s)
  {
    assert ([c] + s)[1..] == s;
  }

  /** After a leading `sudo` word (spaces before it, a space or the end
      after it) the resolved word is the first word of what follows, and
      stays `sudo` when nothing follows. */
  lemma SudoSkipped(lead: string, rest: string)
    requires AllSpace(lead)
    requires rest == [] || IsSpace(rest[0])
    ensures SetPrime(lead + "sudo" + rest) == if AllSpace(rest) then "sudo" else FirstWord(rest)
  {
    ReadWordOf(lead, "sudo", rest);
  }

  /** The glyph drawn in front of a history entry. */
  function Icon(entry: string): (glyph: string)
    ensures AllSpace(entry) ==> glyph == TerminalGlyph
  {
    EmptyUnknown();
    Unicode(SetPrime(entry))
  }

  /** A leading `sudo` word does not change the icon, unless it is
      followed by another `sudo`. */
  lemma IconIgnoresSudo(lead: string, rest: string)
    requires AllSpace(lead)
    requires rest == [] || IsSpace(rest[0])
    requires FirstWord(rest) != "sudo"
    ensures Icon(lead + "sudo" + rest) == Icon(rest)
  {
    SudoSkipped(lead, rest);
    SetPrimeWord(rest);
    EmptyUnknown();
    SudoUnknown();
  }

  /** An entry whose first word is in the table (and is not `sudo`) gets
      that word's glyph. */
  lemma IconKnown(entry: string)
    requires FirstWord(entry) in Glyphs && FirstWord(entry) != "sudo"
    ensures Icon(entry) == Glyphs[FirstWord(entry)]
  {
    SetPrimeWord(entry);
  }

  /** Blank entries and unknown programs get the terminal glyph. */
  lemma IconFallback(entry: string)
    requires FirstWord(entry) !in Glyphs && FirstWord(entry) != "sudo"
    ensures Icon(entry) == TerminalGlyph
  {
    SetPrimeWord(entry);
  }

  /** `apt update` starts with the word `apt`. */
  lemma AptWord()
    ensures FirstWord("apt update") == "apt"
  {
    var word, rest := "apt", " update";
    assert word + rest == "apt update";
    ReadWordOf([], word, rest);
  }

  /** So does ` apt update`, as left after a leading `sudo`. */
  lemma SpacedAptWord()
    ensures FirstWord(" apt update") == "apt"
  {
    var lead, word, rest := " ", "apt", " update";
    assert lead + word + rest == " apt update";
    ReadWordOf(lead, word, rest);
  }

  /** `unknownbinary arg` starts with the word `unknownbinary`. */
  lemma UnknownWord()
    ensures FirstWord("unknownbinary arg") == "unknownbinary"
  {
    assert "unknownbinary arg" == [] + "unknownbinary" + " arg";
    ReadWordOf([], "unknownbinary", " arg");
  }

  /** `apt update` resolves to `apt`. */
  lemma AptPrime()
    ensures SetPrime("apt update") == "apt"
  {
    AptWord();
    SetPrimeWord("apt update");
  }

  /** `sudo apt update` resolves to `apt` as well. */
  lemma SudoAptPrime()
    ensures SetPrime("sudo apt update") == "apt"
  {
    var lead: string, rest := [], " apt update";
    assert lead + "sudo" + rest == "sudo apt update";
    assert rest[1] == 'a' && !AllSpace(rest);
    SpacedAptWord();
    SudoSkipped(lead, rest);
  }

  /** Worked example: `sudo apt update` and `apt update` share the apt glyph. */
  lemma SudoAptExample()
    ensures Icon("sudo apt update") == Icon("apt update") == Glyphs["apt"]
  {
    AptPrime();
    SudoAptPrime();
    KnownNames();
  }

  /** Worked example: an unknown program gets the terminal glyph. */
  lemma UnknownExample()
    ensures Icon("unknownbinary arg") == TerminalGlyph
  {
    UnknownWord();
    UnknownBinaryUnknown();
    IconFallback("unknownbinary arg");
  }

  /** Worked example: a blank entry gets the terminal glyph. */
  lemma BlankExample()
    ensures Icon("") == TerminalGlyph
  {
    EmptyUnknown();
    IconFallback("");
  }

  /** Leading white space and the arguments are ignored. */
  lemma SetPrimeExample()
    ensures SetPrime("  git   status") == "git"
  {
    var lead, word, rest := "  ", "git", "   status";
    assert lead + word + rest == "  git   status";
    ReadWordOf(lead, word, rest);
  }
}
