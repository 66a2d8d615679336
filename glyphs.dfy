/** The static glyph table of `unicode`: command names mapped to Nerd Font
    glyphs (kept as opaque strings of code points), with the console glyph
    as the fallback for every name the table does not know. */
module GlyphTable {

  /** The glyph for "ter" (a console), also the fallback for unknown words. */
  const TerminalGlyph: string := "\U{EA85}"

  /** The static table of `unicode`. */
  const Glyphs: map<string, string> := map[
    "ter" := TerminalGlyph,
    "g++" := "\U{F7A1}", "clang++" := "\U{F7A1}", "clang" := "\U{F7A1}", "gcc" := "\U{F7A1}",
    "python" := "\U{E73C}",
    "vim" := "\U{E62B}", "nvim" := "\U{E62B}",
    "cmake" := "\U{E61E}",
    "git" := "\U{E702}",
    "sh" := "\U{EA85}", "bash" := "\U{EA85}", "zsh" := "\U{EA85}",
    "dir" := "\U{F115}", "ls" := "\U{F115}",
    "apt" := "\U{F309}",
    "java" := "\U{E738}", "javac" := "\U{E738}", "jshell" := "\U{E738}",
    "php" := "\U{E73D}",
    "lua" := "\U{E620}",
    "node" := "\U{E718}",
    "npm" := "\U{E71E}",
    "bun" := "\U{E7B6}",
    "qjs" := "\U{E718}",
    "swift" := "\U{E755}",
    "zip" := "\U{F410}", "tar" := "\U{F410}",
    "make" := "\U{F489}",
    "mpg123" := "\U{F001}",
    "ffmpeg" := "\U{F03D}", "ffplay" := "\U{F03D}",
    "go" := "\U{E724}",
    "rustc" := "\U{E7A8}", "cargo" := "\U{E7A8}",
    "ruby" := "\U{E739}",
    "mysql" := "\U{E704}",
    "psql" := "\U{E76E}",
    "sqlite3" := "\U{E7C4}", "sqlite" := "\U{E7C4}"
  ]

  /** `unicode(name)`: the table's glyph for a known name, the terminal glyph
      for any other (the fallback entry exists, so the lookup never fails). */
  function Unicode(name: string): (g: string)
    ensures name in Glyphs ==> g == Glyphs[name]
    ensures name !in Glyphs ==> g == TerminalGlyph
  {
    if name in Glyphs then Glyphs[name] else Glyphs["ter"]
  }

  /** The empty word is not a name in the table. */
  lemma EmptyUnknown()
    ensures "" !in Glyphs
  {
  }

  /** Nor is `sudo` itself. */
  lemma SudoUnknown()
    ensures "sudo" !in Glyphs
  {
  }

  /** Nor an arbitrary program the table does not list. */
  lemma UnknownBinaryUnknown()
    ensures "unknownbinary" !in Glyphs
  {
  }

  /** A name the table knows. */
  lemma KnownNames()
    ensures "apt" in Glyphs
  {
  }
}
