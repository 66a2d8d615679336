# his — a verified model of the history picker

`his` is a terminal picker for shell history. It reads the user's history
file, shows the entries that match what the user types (with a rank label,
a colour and a Nerd Font glyph chosen from the entry's command word), and on
Enter runs the first match through the shell. This project models its
decision logic in Dafny, with the terminal, the history file and the shell
replaced by plain values:

- `text.dfy` (`Text`): `std::string::find` and the `%02lu` rank label.
- `filtering.dfy` (`Filtering`): order-preserving filtering, shared by the
  history loader and the matcher, with its exact characterisation.
- `colours.dfy` (`Colours`): the eight custom colours and `rgb_to_ncurses`,
  with C++ truncating division written out.
- `glyphs.dfy` (`GlyphTable`): the static glyph table of `unicode`.
- `icons.dfy` (`Icons`): `set_prime`, the `>>` word extraction it relies on
  (classic-locale white space), and the icon of an entry.
- `matching.dfy` (`Matching`): `get_matches` as a function, in contains mode
  (`find != npos`) and prefix mode (`find == 0`, `--match-start`).
- `history.dfy` (`History`): `load_suggestions` over the lines `getline`
  returns.
- `screen.dfy` (`Screen`): what one pass draws, as a list of print and cursor
  records instead of ncurses calls.
- `keys.dfy` (`Keys`): how one key read by `getch` changes the query.
- `picker.dfy` (`Picker`): the `His` object with its fields, the passes of
  `run`, and the session as a function of the keys pressed.
- `cli.dfy` (`Cli`): `main`'s argument loop, returning
  `Run(matchStart, showIcons) | Help | Version | Invalid(program)`.

Modelling decisions that follow the code:

- In prefix mode `get_matches` tests the field `input`, not its argument
  (his.cpp:226). `His.GetMatches` keeps that distinction; `run` passes
  `input` itself, so both coincide there.
- `set_prime` keeps `sudo` when nothing follows it, because the second `>>`
  fails and leaves the word unchanged (his.cpp:237).
- The colour pair of result row `i` is `color_ids[i % 8] - 1`, which is
  `i % 8`: row 0 uses pair 0, the terminal's default colours, and pair 8,
  the grey of the rank labels, never colours an entry (his.cpp:114).
- Key codes are ncurses' `KEY_ENTER` (343) and `KEY_BACKSPACE` (263), with
  127 and 8 also erasing; Enter is tested first, then the erase keys, then
  `isprint` (his.cpp:133-155).
- The terminal's size and each key are inputs of a pass; a run is given the
  sizes and keys of its passes, and its screens are returned.

## Model

| member | source | states |
|---|---|---|
| Text.FindFrom | his.cpp:224 | the result is the first position at or after `i` where the query occurs, or None when it occurs at no such position |
| Text.Find | his.cpp:224 | `find`: the first position where the query occurs, or None (`npos`) when it occurs nowhere |
| Text.FindFoundIffSubstring | his.cpp:224 | `find != npos` holds exactly when the query is a contiguous substring of the entry |
| Text.FindZeroIffPrefix | his.cpp:226 | `find == 0` holds exactly when the entry starts with the query |
| Text.FindEmpty | his.cpp:224 | the empty query is found at position 0 of every entry |
| Text.Decimal | his.cpp:104-105 | the decimal digits of a number: at least one, only digits, one digit exactly below 10, no leading zero from 10 on |
| Text.DecimalRoundTrip | his.cpp:104-105 | reading the digits back gives the number |
| Text.LeadingZero | his.cpp:104-105 | a zero pad in front does not change the value read back |
| Text.Rank | his.cpp:104-105 | `%02lu`: only digits, exactly two below 100, the plain decimal from 10 on |
| Text.RankRoundTrip | his.cpp:104-105 | every rank label reads back as its rank |
| Filtering.FilterExactly | his.cpp:222-228 | the kept elements are the input's at strictly increasing positions, and a position is kept exactly when its element passes the test |
| Filtering.FilterPicks | his.cpp:222-228 | the kept elements are the input's elements at the strictly increasing positions `Positions` lists |
| Filtering.PositionsExactly | his.cpp:222-228 | a position is listed exactly when its element passes the test |
| Filtering.FilterKeeps | his.cpp:222-228 | everything kept is an element of the input that passes the test |
| Filtering.FilterMembers | his.cpp:222-228 | a value is kept exactly when it occurs in the input and passes the test |
| Filtering.FilterAll | his.cpp:213-215 | when every element passes, the input is kept whole and in order |
| Filtering.FilterNarrow | his.cpp:222-228 | filtering by a weaker test and then a stronger one equals filtering by the stronger one |
| Filtering.FilterAppend | his.cpp:213-215 | filtering a concatenation filters each part and concatenates the results |
| Colours.TruncDiv | his.cpp:5 | C++ `/`: the quotient rounds toward zero for either sign of the dividend |
| Colours.Level | his.cpp:5 | the defining function of one component's level, `c * 1000 / 255` in C++: the quotient rounded toward zero, i.e. the greatest level whose multiple of 255 does not exceed `c*1000` for a non-negative component; characterised further by LevelBounds, LevelEnds and LevelMonotone |
| Colours.ToNcurses | his.cpp:4-6 | `rgb_to_ncurses` applies the same level scaling to each of the three components |
| Colours.LevelBounds | his.cpp:4-6 | a 0..255 component becomes a 0..1000 level (so it fits the `short` of his.cpp:71), equal to `c*1000/255` rounded down |
| Colours.LevelEnds | his.cpp:4-6 | 0 maps to 0 and 255 to 1000 |
| Colours.LevelMonotone | his.cpp:4-6 | a larger component never gives a smaller level |
| Colours.PaletteLevels | his.cpp:59-81 | all eight custom colours convert to levels within 0..1000 |
| GlyphTable.Unicode | his.cpp:162-207 | a name in the table gets its glyph; any other name gets the console glyph of `ter` |
| GlyphTable.EmptyUnknown | his.cpp:163-204 | the empty word is not in the table |
| GlyphTable.SudoUnknown | his.cpp:163-204 | `sudo` is not in the table |
| GlyphTable.UnknownBinaryUnknown | his.cpp:163-204 | an unlisted program name is not in the table |
| GlyphTable.KnownNames | his.cpp:179 | `apt` is in the table |
| Icons.SkipSpaces | his.cpp:236 | what is left after `>>` skips white space: a suffix, preceded only by white space, that is empty or starts with a non-space |
| Icons.WordEnd | his.cpp:236 | the end of the word: the first white space at or after `i`, or the end of the stream |
| Icons.ReadWord | his.cpp:236 | `>>` fails exactly when only white space remains; otherwise the word is non-empty and space-free, preceded only by white space and followed by white space or the end |
| Icons.FirstWord | his.cpp:234-236 | the first word is space-free, and empty exactly when the line is blank |
| Icons.SkipSpacesOver | his.cpp:236 | leading white space in front of a non-space (or nothing) is exactly what is skipped |
| Icons.WordEndAt | his.cpp:236 | a non-space run that ends at a space or at the end is exactly what `WordEnd` finds |
| Icons.ReadWordOf | his.cpp:236 | the converse of `ReadWord`: white space, a word and a rest starting with a space (or empty) yield exactly that word and rest |
| Icons.SetPrimeWord | his.cpp:233-239 | the resolved word is space-free, empty exactly for a blank line, and the first word unless that word is `sudo` |
| Icons.SetPrime | his.cpp:233-239 | the defining function of `set_prime`: the result is a single word, empty exactly for a blank line; SetPrimeWord and SudoSkipped characterise which word it is |
| Icons.ReadWordSkipsSpace | his.cpp:236 | one white-space character in front of the stream does not change the word read |
| Icons.SudoSkipped | his.cpp:233-239 | for any line whose first word is `sudo` (white space before it, white space or the end after it) the resolved word is the first word of what follows, or `sudo` when only white space follows |
| Icons.IconIgnoresSudo | his.cpp:233-239 | for any line whose first word is `sudo`, dropping that word does not change the icon, unless the next word is `sudo` again |
| Icons.Icon | his.cpp:112-117 | the defining function of an entry's glyph, `unicode(set_prime(entry))`: a blank entry gets the console glyph; IconKnown (a first word in the table gets its glyph), IconFallback (any other first word gets the console glyph) and IconIgnoresSudo (a leading `sudo` is skipped) characterise the rest |
| Icons.IconKnown | his.cpp:205-206 | an entry whose first word is in the table (and is not `sudo`) gets that word's glyph |
| Icons.IconFallback | his.cpp:205-206 | an entry whose first word is not in the table (and is not `sudo`) gets the console glyph |
| Icons.AptWord | his.cpp:236 | `apt update` starts with the word `apt` |
| Icons.SpacedAptWord | his.cpp:236 | ` apt update` starts with the word `apt` |
| Icons.AptPrime | his.cpp:233-239 | `apt update` resolves to `apt` |
| Icons.SudoAptPrime | his.cpp:237 | `sudo apt update` resolves to `apt` |
| Icons.UnknownWord | his.cpp:236 | `unknownbinary arg` starts with the word `unknownbinary` |
| Icons.SudoAptExample | his.cpp:237 | `sudo apt update` and `apt update` both get the apt glyph |
| Icons.UnknownExample | his.cpp:206 | an unlisted program gets the console glyph |
| Icons.BlankExample | his.cpp:206 | an empty entry gets the console glyph |
| Icons.SetPrimeExample | his.cpp:233-239 | leading white space and arguments are ignored: `  git   status` resolves to `git` |
| Matching.Selected | his.cpp:96-101 | the command is the first match, or empty when nothing matches |
| Matching.Accepts | his.cpp:223-226 | the defining test of `get_matches`: in prefix mode it holds exactly when the entry starts with the query, otherwise exactly when the entry contains it |
| Matching.Matches | his.cpp:219-230 | the defining function of `get_matches`: at most as many entries as the history, each from the history and accepted; ContainsModeExactly and PrefixModeExactly characterise it exactly |
| Matching.ContainsModeExactly | his.cpp:222-224 | contains mode keeps the history at increasing positions, a position exactly when its entry contains the query |
| Matching.PrefixModeExactly | his.cpp:225-226 | prefix mode keeps the history at increasing positions, a position exactly when its entry starts with the query |
| Matching.MatchMembers | his.cpp:219-230 | an entry is a match exactly when it is in the history and passes the mode's test |
| Matching.EmptyQueryKeepsAll | his.cpp:219-230 | the empty query matches the whole history in order, in either mode |
| Matching.PrefixImpliesContains | his.cpp:224-226 | every entry prefix mode accepts, contains mode accepts too |
| Matching.PrefixWithinContains | his.cpp:219-230 | prefix mode's matches are contains mode's matches filtered by the prefix test |
| Matching.LongerQueryNarrows | his.cpp:224-226 | an entry that matches a query extended by one character matches the query itself |
| Matching.TypingNarrows | his.cpp:219-230 | typing a character leaves the previous matches that also match the longer query |
| Matching.SelectedIsFirstMatch | his.cpp:96-101 | for a history without empty entries, the selection is empty exactly when no entry matches, and otherwise is the earliest matching entry |
| Matching.ContainsExample | his.cpp:224 | in contains mode `git` selects `git status` and `git commit` but not `ls -la` |
| Matching.PrefixExample | his.cpp:226 | in prefix mode `ls` selects only `ls -la` |
| Matching.PrefixNoneExample | his.cpp:226 | in prefix mode `it` selects nothing, though it occurs inside entries |
| History.LoadSuggestions | his.cpp:209-217 | the loop's result is the non-empty lines in order |
| History.Suggestions | his.cpp:209-217 | the defining function of what `load_suggestions` returns: at most as many lines as the file, each a non-empty line of it; SuggestionsExactly characterises it exactly |
| History.SuggestionsExactly | his.cpp:213-214 | the suggestions are the lines at increasing positions, a line exactly when it is non-empty, duplicates kept |
| History.SuggestionsNonEmpty | his.cpp:214 | no suggestion is empty |
| History.NoBlankLines | his.cpp:213-214 | a file without empty lines is taken whole |
| Screen.EntryText | his.cpp:116-120 | the entry line is glyph and entry after a space each, or the entry alone when icons are off |
| Screen.VisibleRows | his.cpp:103 | the number of rows drawn is the smaller of the match count and the rows above the prompt |
| Screen.ResultRow | his.cpp:104-121 | the defining function of one result row: two print records, both on row `i`; FrameRow and FrameLayout give their contents |
| Screen.ResultRows | his.cpp:103-122 | two records per drawn row |
| Screen.ResultRowsNext | his.cpp:103-122 | drawing one more row appends its label and its entry line |
| Screen.ResultRowsAt | his.cpp:103-122 | records `2i` and `2i+1` are the label and entry line of row `i` |
| Screen.Frame | his.cpp:103-128 | the defining function of one pass's screen: two records per visible row plus prompt and cursor, ending with the cursor after the query on the last row; FrameLayout gives every record |
| Screen.FrameRow | his.cpp:103-121 | result row `i` of a frame is label `i+1` in pair 8 at column 0 and the entry line at column 3 in pair `i mod 8` |
| Screen.FrameLayout | his.cpp:103-128 | a pass draws min(matches, rows-1) rows, row `i` labelled `i+1` in pair 8 with its entry at column 3 in pair `i mod 8`, then the prompt `~> ` and query on the last row and the cursor after the query |
| Screen.FrameStaysOnScreen | his.cpp:103-128 | nothing is drawn outside rows 0..rows-1, and only rows that have a match are drawn above the prompt |
| Keys.OnEnter | his.cpp:133-148 | Enter runs nothing exactly when the query is empty, and otherwise runs the selected command |
| Keys.Edit | his.cpp:151-155 | the defining function of one key's effect on the query: the length changes by at most one and only the end of the query changes; EditStep characterises it exactly |
| Keys.Replay | his.cpp:151-155 | the defining function of the query after several non-Enter keys: its length moves by at most one per key; it applies Edit one key at a time, and EditStep pins down each step exactly; TypingAppends relates it to typing |
| Keys.EditStep | his.cpp:151-155 | an erase key drops the query's last character (nothing when empty), a printable key appends exactly that character, any other key changes nothing |
| Keys.EditLength | his.cpp:151-155 | one key changes the query length by at most one |
| Keys.EraseUndoesType | his.cpp:151-155 | an erase key undoes a printable one |
| Keys.TypingAppends | his.cpp:153-154 | typing a printable text appends it to the query |
| Picker.Presses | his.cpp:132-149 | a session reads at most all its keys, none of the keys before the last one read is Enter, and when it stops early the last key read is Enter |
| Picker.Session | his.cpp:91-156 | the defining function of a whole session: it ends exactly when the last key it reads is Enter; SessionEndsAtFirstEnter, SessionNeedsEnter and SessionIgnoresLaterKeys characterise it |
| Picker.SessionEndsAtFirstEnter | his.cpp:132-149 | the session ends at the first Enter, with the query typed so far and its selection |
| Picker.SessionNeedsEnter | his.cpp:91-156 | without an Enter the session does not end |
| Picker.SessionIgnoresLaterKeys | his.cpp:148 | keys after the ending Enter change nothing |
| Picker.SessionRunsHistoryEntry | his.cpp:96-137 | the only command a session can run is a history entry (or empty when nothing matches) |
| Picker.His.constructor | his.cpp:70-84 | the palette is the pair numbers 1..8, the query and selection are empty, the counters zero |
| Picker.His.GetMatches | his.cpp:219-230 | the loop returns the matches of the argument in contains mode and of the field `input` in prefix mode |
| Picker.His.Redraw | his.cpp:92-128 | a pass takes the size, selects the first match of the query, and draws exactly the frame of that query |
| Picker.DrawRows | his.cpp:103-122 | the row loop draws exactly the rows that fit above the prompt |
| Picker.RowText | his.cpp:112-120 | the text of a row is the entry line of that entry |
| Picker.His.HandleKey | his.cpp:132-155 | Enter stops with the selection (or nothing for an empty query) and keeps the query; any other key edits the query and continues |
| Picker.His.Pass | his.cpp:91-156 | one iteration stores the size and the key read, selects the first match of the query, draws the frame of that query, and then ends on Enter with the query unchanged or edits the query and continues |
| Picker.His.Run | his.cpp:87-160 | `run` ends as the session function says, reads keys up to the first Enter, draws one frame per key showing the query before it, leaves the query the keys before the Enter (or all keys) produce, and leaves the selection, size and key of the last pass in the fields (nothing changes when there are no keys); when the keys run out before Enter the model stops at the loop head, before the next pass reads the size, selects and draws |
| Cli.Terminal | main.cpp:27-36 | a non-option argument gives help, the version, or an error naming the program |
| Cli.Parse | main.cpp:21-37 | the defining function of the argument scan: options are only ever switched on (match-start) or off (icons), and an error names the program; OptionsOnly, FirstTerminatorDecides and RunsIffAllOptions characterise it |
| Cli.CommandLine | main.cpp:18-38 | the defining function of a whole command line: an invalid-argument outcome only arises with at least one argument and names `argv[0]`; CommandLineLaunches characterises when the picker starts |
| Cli.ExitStatus | main.cpp:27-41 | success for every outcome except an invalid argument, which fails |
| Cli.ParseArgs | main.cpp:18-38 | the argument loop yields the outcome of the command line, with the defaults when no argument is given |
| Cli.OptionsOnly | main.cpp:21-26 | options alone start the picker, prefix matching when a match-start flag is present, icons unless a no-icons flag is present |
| Cli.OptionsCommute | main.cpp:23-26 | repeated and reordered options give the same outcome |
| Cli.FirstTerminatorDecides | main.cpp:21-37 | the first argument that is not an option decides the outcome, whatever precedes or follows it |
| Cli.RunsIffAllOptions | main.cpp:21-37 | the scan starts the picker exactly when every argument is an option |
| Cli.CommandLineLaunches | main.cpp:18-41 | `main` constructs the picker exactly when every argument after the program name is an option |
| Cli.InvalidBeforeHelp | main.cpp:33-36 | `his -x -h` is an invalid argument and fails |
| Cli.HelpBeforeInvalid | main.cpp:27-29 | `his -h -x` prints help |
| Cli.OptionsExample | main.cpp:23-26 | `his -n --match-start -n` starts the picker with prefix matching and no icons |

## Left out

- Terminal I/O: `initscr`, `clear`, `attron`, `mvprintw`, `refresh`, `getch`, `endwin` and the `init_color`/`init_pair` calls are replaced by the list of drawn records, the size and key inputs, and the palette field.
- The colour-capability check and its exception (his.cpp:54-57): the model assumes a capable terminal.
- History file resolution from `HOME`, `SHELL` and `HISTFILE` (his.cpp:8-45) and reading the file: the lines `getline` would return are an input of `Run`.
- Running the selected command with `std::system` and the failure message (his.cpp:137-146): a session ends with the command to run.
- `setlocale` (main.cpp:14) and the UTF-8 bytes of the glyphs: glyphs are opaque strings of code points.
- `isprint` depends on the locale: the model uses the "C" locale's 0x20..0x7E.
- The texts printed for help, version and an invalid argument (main.cpp:3-11, 31, 34): only the outcome and the exit status are modelled.
- Line wrapping and clipping against the terminal width: `cols` is stored but, as in the source, not used for drawing.
- Picker.His.Redraw: requires at least one row; on a zero-height terminal the source's `(size_t)(rows - 1)` wraps around and the row loop is bounded by the match count only.
- Colours.Level: uses unbounded integers; `c * 1000` would overflow `int` only for components far outside 0..255, which the palette never has.
- History entries and the query are byte strings (`std::string`) in the source and `seq<char>` here; every test the model makes (equality, `find`, white space, `isprint`) compares one unit at a time, so the results agree.
- A NUL character inside an entry, which `%s` would cut short.
- The constructor's defaults in his.hpp:38-39 are never used by `main` and are not modelled separately.
