/** The launcher's three text formatters: the SLURM wall time, the
    `--flag value` rendering of a parameter record, and the nested results
    directory of a record. Each comes with the reading that undoes it: a
    duration parser, the way a shell and an argument parser read the flags
    back, and the split of a path into its segments. */
module Formatting {
  import opened Wrappers
  import opened Text
  import opened Records

  // ---------------------------------------------------------------------
  // Wall time (Launcher._to_duration)

  /** One clock field: a single leading "0" below ten, nothing otherwise. */
  function Pad(x: int): string {
    if x < 10 then "0" + IntToString(x) else IntToString(x)
  }

  /** SLURM's `D-HH:MM:SS`; the day count is never padded, and the clock
      follows the first dash. */
  function ToDuration(days: int, hours: int, minutes: int, seconds: int): (t: string)
    ensures StartsWith(t, IntToString(days) + "-")
    ensures t[|IntToString(days)| + 1..] == Pad(hours) + ":" + Pad(minutes) + ":" + Pad(seconds)
  {
    var d, clock := IntToString(days) + "-", Pad(hours) + ":" + Pad(minutes) + ":" + Pad(seconds);
    ConcatAssoc(d, Pad(hours), ":");
    ConcatAssoc(d, Pad(hours) + ":", Pad(minutes));
    ConcatAssoc(d, Pad(hours) + ":" + Pad(minutes), ":");
    ConcatAssoc(d, Pad(hours) + ":" + Pad(minutes) + ":", Pad(seconds));
    assert (d + clock)[..|d|] == d;
    assert (d + clock)[|d|..] == clock;
    d + clock
  }

  /** A field of a clock reading in range has exactly two characters. */
  lemma PadWidth(x: int)
    requires 0 <= x < 100
    ensures |Pad(x)| == 2 && AllDigits(Pad(x))
    ensures (x < 10) == (Pad(x)[0] == '0')
  {
    if x >= 10 {
      assert NatToString(x) == NatToString(x / 10) + [DigitChar(x % 10)];
      assert NatToString(x / 10) == [DigitChar(x / 10)];
    }
  }

  predicate IsNumeral(s: string) {
    |s| >= 1 && AllDigits(s)
  }

  /** The value of a non-empty decimal numeral, if `s` is one. */
  function Num(s: string): (n: Option<nat>)
    ensures n.Some? <==> IsNumeral(s)
  {
    if IsNumeral(s) then Some(ParseNat(s)) else None
  }

  /** Reads `HH:MM:SS` back into its three numbers. */
  function ParseClock(c: string): Option<(nat, nat, nat)> {
    var p := SplitOn(c, ':');
    if |p| != 3 then None
    else
      var h, m, s := Num(p[0]), Num(p[1]), Num(p[2]);
      if h.None? || m.None? || s.None? then None
      else Some((h.value, m.value, s.value))
  }

  /** Reads a `D-HH:MM:SS` string back into its four numbers. */
  function ParseDuration(t: string): Option<(nat, nat, nat, nat)> {
    var p := SplitOn(t, '-');
    if |p| != 2 then None
    else
      var d, c := Num(p[0]), ParseClock(p[1]);
      if d.None? || c.None? then None
      else Some((d.value, c.value.0, c.value.1, c.value.2))
  }

  lemma DigitsHaveNo(s: string, c: char)
    requires AllDigits(s) && !IsDigit(c)
    ensures c !in s
  {
  }

  /** A padded field reads back as the number it was made from. */
  lemma PadRoundTrip(x: nat)
    ensures Num(Pad(x)) == Some(x)
  {
    NatRoundTrip(x);
    if x < 10 {
      ParseLeadingZero(NatToString(x));
    }
  }

  /** Three separator-free pieces joined by the separator split back into
      those three pieces. */
  lemma SplitThree(a: string, b: string, c: string, sep: char)
    requires sep !in a && sep !in b && sep !in c
    ensures SplitOn(a + [sep] + b + [sep] + c, sep) == [a, b, c]
  {
    assert a + [sep] + b + [sep] + c == a + [sep] + (b + [sep] + c);
    SplitOnJoin(a, b + [sep] + c, sep);
    SplitOnJoin(b, c, sep);
    SplitOnNoSeparator(a, sep);
    SplitOnNoSeparator(b, sep);
    SplitOnNoSeparator(c, sep);
  }

  lemma SplitTwo(a: string, b: string, sep: char)
    requires sep !in a && sep !in b
    ensures SplitOn(a + [sep] + b, sep) == [a, b]
  {
    SplitOnJoin(a, b, sep);
    SplitOnNoSeparator(a, sep);
    SplitOnNoSeparator(b, sep);
  }

  /** The clock written by `_to_duration` reads back as its three fields. */
  lemma ClockRoundTrip(hours: nat, minutes: nat, seconds: nat)
    ensures ParseClock(Pad(hours) + ":" + Pad(minutes) + ":" + Pad(seconds)) == Some((hours, minutes, seconds))
  {
    var h, m, s := Pad(hours), Pad(minutes), Pad(seconds);
    PadRoundTrip(hours);
    PadRoundTrip(minutes);
    PadRoundTrip(seconds);
    DigitsHaveNo(h, ':');
    DigitsHaveNo(m, ':');
    DigitsHaveNo(s, ':');
    SplitThree(h, m, s, ':');
  }

  /** A clock of padded numerals contains no dash. */
  lemma ClockHasNoDash(hours: nat, minutes: nat, seconds: nat)
    ensures '-' !in Pad(hours) + ":" + Pad(minutes) + ":" + Pad(seconds)
  {
    PadRoundTrip(hours);
    PadRoundTrip(minutes);
    PadRoundTrip(seconds);
    DigitsHaveNo(Pad(hours), '-');
    DigitsHaveNo(Pad(minutes), '-');
    DigitsHaveNo(Pad(seconds), '-');
  }

  /** The parser on a day field and a clock joined by a dash. */
  lemma ParseDurationOf(d: string, clock: string, dv: nat, c: (nat, nat, nat))
    requires '-' !in d && '-' !in clock
    requires Num(d) == Some(dv) && ParseClock(clock) == Some(c)
    ensures ParseDuration(d + "-" + clock) == Some((dv, c.0, c.1, c.2))
  {
    SplitTwo(d, clock, '-');
  }

  /** For a non-negative duration the wall-time string determines the four
      numbers it was made from: nothing is lost by the padding. */
  lemma DurationRoundTrip(days: nat, hours: nat, minutes: nat, seconds: nat)
    ensures ParseDuration(ToDuration(days, hours, minutes, seconds)) == Some((days, hours, minutes, seconds))
  {
    var d := IntToString(days);
    var h, m, s := Pad(hours), Pad(minutes), Pad(seconds);
    var clock := h + ":" + m + ":" + s;
    ConcatAssoc(d + "-", h, ":");
    ConcatAssoc(d + "-", h + ":", m);
    ConcatAssoc(d + "-", h + ":" + m, ":");
    ConcatAssoc(d + "-", h + ":" + m + ":", s);
    NatRoundTrip(days);
    DigitsHaveNo(d, '-');
    ClockHasNoDash(hours, minutes, seconds);
    ClockRoundTrip(hours, minutes, seconds);
    ParseDurationOf(d, clock, days, (hours, minutes, seconds));
  }

  /** With every clock field below 100 the string is the day count, a dash
      and exactly eight characters `HH:MM:SS`. */
  lemma DurationShape(days: int, hours: int, minutes: int, seconds: int)
    requires 0 <= hours < 100 && 0 <= minutes < 100 && 0 <= seconds < 100
    ensures var t := ToDuration(days, hours, minutes, seconds);
      && |t| == |IntToString(days)| + 9
      && t[..|IntToString(days)|] == IntToString(days)
      && t[|IntToString(days)|] == '-'
      && t[|IntToString(days)| + 3] == ':' && t[|IntToString(days)| + 6] == ':'
  {
    PadWidth(hours);
    PadWidth(minutes);
    PadWidth(seconds);
  }

  /** The examples the launcher's documentation and driver use: fields
      below ten are padded, wider ones are not. */
  lemma DurationExamplesPadded()
    ensures ToDuration(0, 5, 3, 0) == "0-05:03:00"
    ensures ToDuration(1, 0, 0, 0) == "1-00:00:00"
  {
    assert Pad(0) == "00" && Pad(3) == "03" && Pad(5) == "05";
  }

  lemma DurationExamplesWide()
    ensures ToDuration(1, 23, 59, 0) == "1-23:59:00"
    ensures ToDuration(0, 24, 0, 0) == "0-24:00:00"
  {
    assert NatToString(23) == "23" by { assert NatToString(2) == "2"; }
    assert NatToString(59) == "59" by { assert NatToString(5) == "5"; }
    assert NatToString(24) == "24" by { assert NatToString(2) == "2"; }
    assert Pad(0) == "00";
  }

  // ---------------------------------------------------------------------
  // Command-line flags (Launcher._convert_to_command_line)

  /** The flag name of a key: as is, or with `_` turned into `-`. */
  function FlagName(key: string, underscore: bool): string {
    if underscore then key else ReplaceChar(key, '_', '-')
  }

  /** The text one entry contributes: `--flag value ` for a non-boolean,
      the bare `--flag ` for True, nothing for False. */
  function FlagText(e: Entry, underscore: bool): string {
    var flag := "--" + FlagName(e.key, underscore) + " ";
    match e.value
    case BoolV(b) => if b then flag else ""
    case _ => flag + Str(e.value) + " "
  }

  /** The flags of a whole record, entry by entry in insertion order. */
  function CommandLine(exp: seq<Entry>, underscore: bool): string {
    if exp == [] then "" else FlagText(exp[0], underscore) + CommandLine(exp[1..], underscore)
  }

  lemma CommandLineCons(e: Entry, r: seq<Entry>, underscore: bool)
    ensures CommandLine([e] + r, underscore) == FlagText(e, underscore) + CommandLine(r, underscore)
  {
    assert ([e] + r)[1..] == r;
  }

  /** Rendering distributes over splitting the record in two. */
  lemma {:induction false} CommandLineAppend(a: seq<Entry>, b: seq<Entry>, underscore: bool)
    ensures CommandLine(a + b, underscore) == CommandLine(a, underscore) + CommandLine(b, underscore)
  {
    if a == [] {
      assert a + b == b;
    } else {
      assert a + b == [a[0]] + (a[1..] + b);
      CommandLineCons(a[0], a[1..] + b, underscore);
      CommandLineAppend(a[1..], b, underscore);
      ConcatAssoc(FlagText(a[0], underscore), CommandLine(a[1..], underscore), CommandLine(b, underscore));
    }
  }

  /** The flags are empty exactly when every entry is the boolean False:
      an empty record and an all-False record both render as "". */
  lemma {:induction false} CommandLineEmpty(exp: seq<Entry>, underscore: bool)
    ensures CommandLine(exp, underscore) == "" <==> forall i :: 0 <= i < |exp| ==> exp[i].value == BoolV(false)
  {
    if exp != [] {
      CommandLineEmpty(exp[1..], underscore);
      assert forall i :: 1 <= i < |exp| ==> exp[i] == exp[1..][i - 1];
      if exp[0].value != BoolV(false) {
        assert |FlagText(exp[0], underscore)| >= 2;
      }
    }
  }

  /** Without `use_underscore_argparse` no flag name carries an underscore;
      a key without underscores gives the same flags either way. */
  lemma FlagNameDashes(key: string)
    ensures '_' !in FlagName(key, false)
    ensures '_' !in key ==> FlagName(key, false) == key
  {
    var n := FlagName(key, false);
    assert forall i :: 0 <= i < |n| ==> n[i] != '_';
    if '_' !in key {
      assert forall i :: 0 <= i < |key| ==> n[i] == key[i];
    }
  }

  /** What an argument parser reads from the words of a command line. */
  datatype Arg = Switch(name: string) | Valued(name: string, text: string) | Positional(text: string)

  predicate IsFlagWord(w: string) {
    StartsWith(w, "--")
  }

  /** A minimal `argparse`: a `--name` word followed by a word that is not a
      flag is an option with that value, a `--name` word on its own is a
      switch, and any other word is positional. */
  function ParseArgs(ws: seq<string>): seq<Arg>
    decreases |ws|
  {
    if ws == [] then []
    else if IsFlagWord(ws[0]) then
      if |ws| >= 2 && !IsFlagWord(ws[1]) then [Valued(ws[0][2..], ws[1])] + ParseArgs(ws[2..])
      else [Switch(ws[0][2..])] + ParseArgs(ws[1..])
    else [Positional(ws[0])] + ParseArgs(ws[1..])
  }

  /** The words one entry puts on the command line. */
  function EntryWords(e: Entry, underscore: bool): seq<string> {
    var flag := "--" + FlagName(e.key, underscore);
    match e.value
    case BoolV(b) => if b then [flag] else []
    case _ => [flag, Str(e.value)]
  }

  function RecordWords(exp: seq<Entry>, underscore: bool): seq<string> {
    if exp == [] then [] else EntryWords(exp[0], underscore) + RecordWords(exp[1..], underscore)
  }

  /** What the flags of a record mean to the program that receives them:
      True becomes a switch, False disappears, every other value an option
      carrying its `str()`. */
  function Meaning(exp: seq<Entry>, underscore: bool): seq<Arg> {
    if exp == [] then []
    else
      var name := FlagName(exp[0].key, underscore);
      var here := match exp[0].value
        case BoolV(b) => if b then [Switch(name)] else []
        case _ => [Valued(name, Str(exp[0].value))];
      here + Meaning(exp[1..], underscore)
  }

  /** A value that splitting at spaces keeps as one word, and that does not
      look like a flag. */
  predicate WordSafe(s: string) {
    s != [] && ' ' !in s && !StartsWith(s, "--")
  }

  /** Keys and string values that splitting at spaces keeps intact. */
  predicate ShellSafe(exp: seq<Entry>) {
    forall i :: 0 <= i < |exp| ==> ' ' !in exp[i].key && (exp[i].value.StrV? ==> WordSafe(exp[i].value.s))
  }

  lemma StrWordSafe(v: Value)
    requires !v.BoolV? && (v.StrV? ==> WordSafe(v.s))
    ensures WordSafe(Str(v))
  {
    if v.IntV? {
      IntToStringHasNo(v.i, ' ');
      var s := IntToString(v.i);
      if |s| >= 2 {
        assert s[1] != '-' by {
          if v.i < 0 { assert s[1] == s[1..][0]; } else { assert IsDigit(s[1]); }
        }
      }
    }
  }

  lemma FlagWordSafe(key: string, underscore: bool)
    requires ' ' !in key
    ensures var w := "--" + FlagName(key, underscore); w != [] && ' ' !in w && IsFlagWord(w)
  {
    var n := FlagName(key, underscore);
    if !underscore {
      assert forall i :: 0 <= i < |n| ==> n[i] != ' ';
    }
  }

  lemma ShellSafeTail(exp: seq<Entry>)
    requires exp != [] && ShellSafe(exp)
    ensures ShellSafe(exp[1..])
    ensures ' ' !in exp[0].key && (exp[0].value.StrV? ==> WordSafe(exp[0].value.s))
  {
    forall i | 0 <= i < |exp[1..]|
      ensures ' ' !in exp[1..][i].key && (exp[1..][i].value.StrV? ==> WordSafe(exp[1..][i].value.s))
    {
      assert exp[1..][i] == exp[i + 1];
    }
  }

  /** Two space-free words, each followed by a space. */
  lemma TwoWords(w: string, v: string, tail: string)
    requires w != [] && ' ' !in w && v != [] && ' ' !in v
    ensures Words(w + " " + v + " " + tail) == [w, v] + Words(tail)
  {
    assert w + " " + v + " " + tail == w + " " + (v + " " + tail);
    WordsCons(w, v + " " + tail);
    WordsCons(v, tail);
  }

  /** The words of one entry's flag text followed by anything. */
  lemma FlagTextWords(e: Entry, underscore: bool, tail: string)
    requires ' ' !in e.key && (e.value.StrV? ==> WordSafe(e.value.s))
    ensures Words(FlagText(e, underscore) + tail) == EntryWords(e, underscore) + Words(tail)
  {
    var flag := "--" + FlagName(e.key, underscore);
    FlagWordSafe(e.key, underscore);
    if e.value == BoolV(true) {
      assert FlagText(e, underscore) + tail == flag + " " + tail;
      WordsCons(flag, tail);
    } else if e.value == BoolV(false) {
      assert FlagText(e, underscore) + tail == tail;
    } else {
      StrWordSafe(e.value);
      var v := Str(e.value);
      assert FlagText(e, underscore) + tail == flag + " " + v + " " + tail;
      TwoWords(flag, v, tail);
    }
  }

  /** The shell reads the first entry's words off a rendered record. */
  lemma CommandLineWordsStep(exp: seq<Entry>, underscore: bool, rest: string)
    requires exp != [] && ShellSafe(exp)
    ensures Words(CommandLine(exp, underscore) + rest)
      == EntryWords(exp[0], underscore) + Words(CommandLine(exp[1..], underscore) + rest)
  {
    ShellSafeTail(exp);
    var tail := CommandLine(exp[1..], underscore) + rest;
    assert CommandLine(exp, underscore) + rest == FlagText(exp[0], underscore) + tail;
    FlagTextWords(exp[0], underscore, tail);
  }

  /** The shell splits a rendered record, and whatever follows it, into the
      record's words. */
  lemma {:induction false} CommandLineWords(exp: seq<Entry>, underscore: bool, rest: string)
    requires ShellSafe(exp)
    ensures Words(CommandLine(exp, underscore) + rest) == RecordWords(exp, underscore) + Words(rest)
  {
    if exp == [] {
      assert CommandLine(exp, underscore) + rest == rest;
    } else {
      CommandLineWordsStep(exp, underscore, rest);
      ShellSafeTail(exp);
      CommandLineWords(exp[1..], underscore, rest);
      var here, later := EntryWords(exp[0], underscore), RecordWords(exp[1..], underscore);
      assert RecordWords(exp, underscore) == here + later;
      ConcatAssoc(here, later, Words(rest));
    }
  }

  lemma {:induction false} RecordWordsParse(exp: seq<Entry>, underscore: bool)
    requires ShellSafe(exp)
    ensures ParseArgs(RecordWords(exp, underscore)) == Meaning(exp, underscore)
  {
    if exp != [] {
      var e := exp[0];
      ShellSafeTail(exp);
      RecordWordsParse(exp[1..], underscore);
      var flag := "--" + FlagName(e.key, underscore);
      FlagWordSafe(e.key, underscore);
      assert flag[2..] == FlagName(e.key, underscore);
      var rest := RecordWords(exp[1..], underscore);
      RestStartsWithFlag(exp[1..], underscore);
      match e.value {
        case BoolV(b) =>
          if b {
            var ws := [flag] + rest;
            assert RecordWords(exp, underscore) == ws;
            assert ws[0] == flag && ws[1..] == rest;
            assert |ws| >= 2 ==> ws[1] == rest[0];
            assert ParseArgs(ws) == [Switch(flag[2..])] + ParseArgs(rest);
            assert Meaning(exp, underscore) == [Switch(FlagName(e.key, underscore))] + Meaning(exp[1..], underscore);
          } else {
            assert RecordWords(exp, underscore) == rest;
            assert Meaning(exp, underscore) == Meaning(exp[1..], underscore);
          }
        case _ =>
          StrWordSafe(e.value);
          assert RecordWords(exp, underscore) == [flag, Str(e.value)] + rest;
          assert ([flag, Str(e.value)] + rest)[2..] == rest;
      }
    }
  }

  /** The words of a rendered record begin with a flag, if there are any. */
  lemma {:induction false} RestStartsWithFlag(exp: seq<Entry>, underscore: bool)
    ensures RecordWords(exp, underscore) != [] ==> IsFlagWord(RecordWords(exp, underscore)[0])
  {
    if exp != [] {
      RestStartsWithFlag(exp[1..], underscore);
    }
  }

  /** Round trip of `_convert_to_command_line`: what the receiving program
      parses from the rendered flags is the record itself, with False
      entries absent, True entries as switches and every other value as its
      `str()`, in insertion order. */
  lemma CommandLineRoundTrip(exp: seq<Entry>, underscore: bool)
    requires ShellSafe(exp)
    ensures ParseArgs(Words(CommandLine(exp, underscore))) == Meaning(exp, underscore)
  {
    CommandLineWords(exp, underscore, "");
    assert CommandLine(exp, underscore) + "" == CommandLine(exp, underscore);
    assert Words("") == [];
    assert RecordWords(exp, underscore) + [] == RecordWords(exp, underscore);
    RecordWordsParse(exp, underscore);
  }

  // ---------------------------------------------------------------------
  // Results directory (Launcher._generate_results_dir)

  /** The directory level one entry contributes: `key_value`. */
  function Segment(e: Entry): string {
    e.key + "_" + Str(e.value)
  }

  /** `os.path.join` of a directory and a relative name. */
  function Join(dir: string, name: string): string {
    dir + "/" + name
  }

  /** One directory level per entry, in insertion order. */
  function JoinSegments(dir: string, exp: seq<Entry>): string
    decreases |exp|
  {
    if exp == [] then dir else JoinSegments(Join(dir, Segment(exp[0])), exp[1..])
  }

  function ResultsDir(base: string, exp: seq<Entry>, seed: Option<int>): string {
    var dir := JoinSegments(base, exp);
    if seed.Some? then Join(dir, IntToString(seed.value)) else dir
  }

  function Segments(exp: seq<Entry>): seq<string> {
    if exp == [] then [] else [Segment(exp[0])] + Segments(exp[1..])
  }

  /** Keys and values that contain no path separator. */
  predicate PathSafe(exp: seq<Entry>) {
    forall i :: 0 <= i < |exp| ==> '/' !in exp[i].key && '/' !in Str(exp[i].value)
  }

  lemma PathSafeTail(exp: seq<Entry>)
    requires exp != [] && PathSafe(exp)
    ensures PathSafe(exp[1..]) && '/' !in Segment(exp[0])
  {
    forall i | 0 <= i < |exp[1..]| ensures '/' !in exp[1..][i].key && '/' !in Str(exp[1..][i].value) {
      assert exp[1..][i] == exp[i + 1];
    }
  }

  lemma {:induction false} JoinSegmentsSplit(dir: string, exp: seq<Entry>)
    requires PathSafe(exp)
    ensures SplitOn(JoinSegments(dir, exp), '/') == SplitOn(dir, '/') + Segments(exp)
    decreases |exp|
  {
    if exp != [] {
      var seg := Segment(exp[0]);
      PathSafeTail(exp);
      assert SplitOn(JoinSegments(dir, exp), '/') == SplitOn(Join(dir, seg), '/') + Segments(exp[1..]) by {
        JoinSegmentsSplit(Join(dir, seg), exp[1..]);
      }
      assert SplitOn(Join(dir, seg), '/') == SplitOn(dir, '/') + [seg] by {
        assert Join(dir, seg) == dir + ['/'] + seg;
        SplitOnJoin(dir, seg, '/');
        SplitOnNoSeparator(seg, '/');
      }
      assert Segments(exp) == [seg] + Segments(exp[1..]);
    }
  }

  /** `_generate_results_dir` read back: the path is the base path followed
      by exactly one segment `key_value` per entry, in insertion order, and
      one more segment `str(seed)` exactly when a seed is given. */
  lemma ResultsDirSegments(base: string, exp: seq<Entry>, seed: Option<int>)
    requires PathSafe(exp)
    ensures SplitOn(ResultsDir(base, exp, seed), '/') ==
      SplitOn(base, '/') + Segments(exp) + (if seed.Some? then [IntToString(seed.value)] else [])
  {
    JoinSegmentsSplit(base, exp);
    if seed.Some? {
      var s := IntToString(seed.value);
      IntToStringHasNo(seed.value, '/');
      SplitOnJoin(JoinSegments(base, exp), s, '/');
      SplitOnNoSeparator(s, '/');
    }
  }

  /** A results directory lies below its base directory, and is the base
      itself for an empty record without a seed. */
  lemma ResultsDirBelow(base: string, exp: seq<Entry>, seed: Option<int>)
    ensures StartsWith(ResultsDir(base, exp, seed), base)
    ensures exp == [] && seed.None? ==> ResultsDir(base, exp, seed) == base
  {
    JoinSegmentsBelow(base, exp);
    var dir := JoinSegments(base, exp);
    if seed.Some? {
      var r := ResultsDir(base, exp, seed);
      assert r[..|dir|] == dir;
      assert r[..|base|] == dir[..|base|];
    }
  }

  lemma {:induction false} JoinSegmentsBelow(dir: string, exp: seq<Entry>)
    ensures StartsWith(JoinSegments(dir, exp), dir)
    decreases |exp|
  {
    if exp != [] {
      var mid := Join(dir, Segment(exp[0]));
      JoinSegmentsBelow(mid, exp[1..]);
      var j := JoinSegments(mid, exp[1..]);
      assert mid[..|dir|] == dir;
      assert j[..|dir|] == mid[..|dir|];
    }
  }

  /** Joining names to one directory keeps different names apart. */
  lemma JoinInjective(dir: string, a: string, b: string)
    requires Join(dir, a) == Join(dir, b)
    ensures a == b
  {
    assert Join(dir, a)[|dir| + 1..] == a;
    assert Join(dir, b)[|dir| + 1..] == b;
  }

  /** Different seeds never share a directory below one parent. */
  lemma SeedNamesDistinct(dir: string, s1: int, s2: int)
    requires Join(dir, IntToString(s1)) == Join(dir, IntToString(s2))
    ensures s1 == s2
  {
    JoinInjective(dir, IntToString(s1), IntToString(s2));
    IntToStringInjective(s1, s2);
  }

  /** Different seeds of one record never share a directory. */
  lemma SeedDirsDistinct(base: string, exp: seq<Entry>, s1: int, s2: int)
    requires ResultsDir(base, exp, Some(s1)) == ResultsDir(base, exp, Some(s2))
    ensures s1 == s2
  {
    SeedNamesDistinct(JoinSegments(base, exp), s1, s2);
  }

  /** The seed directory sits directly inside the record's directory. */
  lemma SeedDirIsChild(base: string, exp: seq<Entry>, seed: int)
    ensures StartsWith(ResultsDir(base, exp, Some(seed)), ResultsDir(base, exp, None) + "/")
  {
  }
}
