/**
  The self-contained helpers of `tv/portable/util.py`: JavaScript string
  escaping, the `Key = Value` configuration file format, list partitioning,
  text clamping, exponential back-off, the duration display format, and the
  conversion of byte strings to text inside nested lists and dicts.
 */
module Util {
  import opened Wrappers
  import opened Text

  // ---------------------------------------------------------------------
  // quoteJS

  /** Python's `s.replace(c, r)` for a one-character pattern `c`. */
  function ReplaceAll(s: string, c: char, r: string): string {
    if s == [] then [] else (if s[0] == c then r else [s[0]]) + ReplaceAll(s[1..], c, r)
  }

  lemma {:induction false} ReplaceAllConcat(a: string, b: string, c: char, r: string)
    ensures ReplaceAll(a + b, c, r) == ReplaceAll(a, c, r) + ReplaceAll(b, c, r)
  {
    if a != [] {
      assert (a + b)[1..] == a[1..] + b;
      ReplaceAllConcat(a[1..], b, c, r);
    } else {
      assert a + b == b;
    }
  }

  /** The five replacements of `quoteJS`, in the order the source applies them. */
  function QuoteJS(x: string): string {
    var x1 := ReplaceAll(x, '\\', "\\\\");
    var x2 := ReplaceAll(x1, '"', "\\\"");
    var x3 := ReplaceAll(x2, '\'', "\\'");
    var x4 := ReplaceAll(x3, '\n', "\\n");
    ReplaceAll(x4, '\r', "\\r")
  }

  /** The escape sequence a single character becomes in a JavaScript string literal. */
  function EscapeChar(ch: char): string {
    match ch
    case '\\' => "\\\\"
    case '"' => "\\\""
    case '\'' => "\\'"
    case '\n' => "\\n"
    case '\r' => "\\r"
    case _ => [ch]
  }

  /** Reference definition: every character escaped independently, left to right. */
  function Escape(x: string): string {
    if x == [] then [] else EscapeChar(x[0]) + Escape(x[1..])
  }

  lemma QuoteJSConcat(a: string, b: string)
    ensures QuoteJS(a + b) == QuoteJS(a) + QuoteJS(b)
  {
    var a1, b1 := ReplaceAll(a, '\\', "\\\\"), ReplaceAll(b, '\\', "\\\\");
    ReplaceAllConcat(a, b, '\\', "\\\\");
    var a2, b2 := ReplaceAll(a1, '"', "\\\""), ReplaceAll(b1, '"', "\\\"");
    ReplaceAllConcat(a1, b1, '"', "\\\"");
    var a3, b3 := ReplaceAll(a2, '\'', "\\'"), ReplaceAll(b2, '\'', "\\'");
    ReplaceAllConcat(a2, b2, '\'', "\\'");
    var a4, b4 := ReplaceAll(a3, '\n', "\\n"), ReplaceAll(b3, '\n', "\\n");
    ReplaceAllConcat(a3, b3, '\n', "\\n");
    ReplaceAllConcat(a4, b4, '\r', "\\r");
  }

  lemma ReplaceAllOne(a: char, c: char, r: string)
    ensures ReplaceAll([a], c, r) == if a == c then r else [a]
  {
    assert [a][1..] == [];
  }

  lemma QuoteJSChar(ch: char)
    ensures QuoteJS([ch]) == EscapeChar(ch)
  {
    var x1 := ReplaceAll([ch], '\\', "\\\\");
    ReplaceShort([ch], '\\', "\\\\");
    var x2 := ReplaceAll(x1, '"', "\\\"");
    ReplaceShort(x1, '"', "\\\"");
    var x3 := ReplaceAll(x2, '\'', "\\'");
    ReplaceShort(x2, '\'', "\\'");
    var x4 := ReplaceAll(x3, '\n', "\\n");
    ReplaceShort(x3, '\n', "\\n");
    ReplaceShort(x4, '\r', "\\r");
  }

  /** Replacing in a text of one character, or of two that are not replaced. */
  lemma ReplaceShort(s: string, c: char, r: string)
    requires 1 <= |s| <= 2
    ensures |s| == 1 ==> ReplaceAll(s, c, r) == if s[0] == c then r else s
    ensures |s| == 2 && s[0] != c && s[1] != c ==> ReplaceAll(s, c, r) == s
  {
    ReplaceAllOne(s[0], c, r);
    if |s| == 2 {
      assert s[1..] == [s[1]];
      ReplaceAllOne(s[1], c, r);
    } else {
      assert s == [s[0]];
    }
  }

  /**
    Because the backslash is replaced first, the chain of replacements
    escapes every character exactly once: it equals the per-character escape.
   */
  lemma {:induction false} QuoteJSIsEscape(x: string)
    ensures QuoteJS(x) == Escape(x)
  {
    if x != [] {
      assert x == [x[0]] + x[1..];
      QuoteJSConcat([x[0]], x[1..]);
      QuoteJSChar(x[0]);
      QuoteJSIsEscape(x[1..]);
    }
  }

  /** How a JavaScript string literal reads the escapes `quoteJS` produces. */
  function UnescapeChar(c: char): string {
    match c
    case 'n' => "\n"
    case 'r' => "\r"
    case _ => [c]
  }

  function Unescape(s: string): string
    decreases |s|
  {
    if s == [] then []
    else if s[0] == '\\' && |s| >= 2 then UnescapeChar(s[1]) + Unescape(s[2..])
    else [s[0]] + Unescape(s[1..])
  }

  /** A JavaScript reader of the quoted text recovers the original text. */
  lemma {:induction false} UnescapeQuoteJS(x: string)
    ensures Unescape(QuoteJS(x)) == x
  {
    QuoteJSIsEscape(x);
    UnescapeEscape(x);
  }

  lemma {:induction false} UnescapeEscape(x: string)
    ensures Unescape(Escape(x)) == x
  {
    if x != [] {
      UnescapeEscape(x[1..]);
      UnescapeEscapeChar(x[0], Escape(x[1..]));
      assert x == [x[0]] + x[1..];
    }
  }

  /** One escaped character in front of `rest` reads back as that character. */
  lemma UnescapeEscapeChar(c: char, rest: string)
    ensures Unescape(EscapeChar(c) + rest) == [c] + Unescape(rest)
  {
    var e := EscapeChar(c);
    var s := e + rest;
    if |e| == 2 {
      assert s[0] == '\\' && s[1] == e[1];
      assert s[2..] == rest;
    } else {
      assert s[1..] == rest;
    }
  }

  /** Quoted text holds no raw line feed or carriage return. */
  lemma {:induction false} QuoteJSNoLineBreaks(x: string)
    ensures '\n' !in QuoteJS(x) && '\r' !in QuoteJS(x)
  {
    QuoteJSIsEscape(x);
    EscapeNoLineBreaks(x);
  }

  lemma {:induction false} EscapeNoLineBreaks(x: string)
    ensures '\n' !in Escape(x) && '\r' !in Escape(x)
  {
    if x != [] {
      EscapeNoLineBreaks(x[1..]);
    }
  }

  predicate QuotesEscaped(s: string) {
    forall i :: 0 <= i < |s| && (s[i] == '"' || s[i] == '\'') ==> i > 0 && s[i - 1] == '\\'
  }

  /** Every quote character in quoted text directly follows a backslash. */
  lemma {:induction false} QuoteJSQuotesEscaped(x: string)
    ensures QuotesEscaped(QuoteJS(x))
  {
    QuoteJSIsEscape(x);
    EscapeQuotesEscaped(x);
  }

  lemma {:induction false} EscapeQuotesEscaped(x: string)
    ensures QuotesEscaped(Escape(x))
  {
    if x != [] {
      var e, rest := EscapeChar(x[0]), Escape(x[1..]);
      EscapeQuotesEscaped(x[1..]);
      var s := e + rest;
      forall i | 0 <= i < |s| && (s[i] == '"' || s[i] == '\'')
        ensures i > 0 && s[i - 1] == '\\'
      {
        if i >= |e| {
          assert s[i] == rest[i - |e|];
          assert i - |e| > 0 && rest[i - |e| - 1] == '\\';
          assert s[i - 1] == rest[i - 1 - |e|];
        }
      }
    }
  }

  // ---------------------------------------------------------------------
  // readSimpleConfigFile / writeSimpleConfigFile

  /** `f.readlines()`: every line keeps its line feed; the last one may lack it. */
  function Lines(s: string): seq<string>
    decreases |s|
  {
    if s == [] then []
    else
      var i := IndexOf(s, '\n');
      if i == |s| then [s] else [s[..i + 1]] + Lines(s[i + 1..])
  }

  /** `re.match("^[ \t]*$", line)`: `$` also matches before a final line feed. */
  predicate IsBlank(line: string) {
    forall i :: 0 <= i < |LineBody(line)| ==> LineBody(line)[i] == ' ' || LineBody(line)[i] == '\t'
  }

  /** The line without its final line feed, if it has one. */
  function LineBody(line: string): string {
    if line != [] && line[|line| - 1] == '\n' then line[..|line| - 1] else line
  }

  predicate IsBreak(ch: char) {
    ch == '\r' || ch == '\n'
  }

  /** Number of spaces in `s` from index `i` on. */
  function SpacesFrom(s: string, i: nat): (n: nat)
    requires i <= |s|
    ensures i + n <= |s|
    ensures forall j :: i <= j < i + n ==> s[j] == ' '
    ensures i + n == |s| || s[i + n] != ' '
    decreases |s| - i
  {
    if i < |s| && s[i] == ' ' then 1 + SpacesFrom(s, i + 1) else 0
  }

  /** Length of the run of characters of `s` that are not spaces, from the start. */
  function NonSpaceRun(s: string): (n: nat)
    ensures n <= |s|
    ensures forall j :: 0 <= j < n ==> s[j] != ' '
    ensures n == |s| || s[n] == ' '
  {
    if s != [] && s[0] != ' ' then 1 + NonSpaceRun(s[1..]) else 0
  }

  /** Length of the run of characters of `s` that are not line breaks, from the start. */
  function NonBreakRun(s: string): (n: nat)
    ensures n <= |s|
    ensures forall j :: 0 <= j < n ==> !IsBreak(s[j])
    ensures n == |s| || IsBreak(s[n])
  {
    if s != [] && !IsBreak(s[0]) then 1 + NonBreakRun(s[1..]) else 0
  }

  /**
    The pattern `^([^ ]+) *= *([^\r\n]*)[\r\n]*$` with the key group fixed
    to the first `k` characters: the value is the longest run free of line
    breaks after the spaces that follow `=`, and only line breaks may follow it.
   */
  function MatchWithKey(line: string, k: nat): Option<(string, string)>
    requires 1 <= k <= |line|
  {
    var q := k + SpacesFrom(line, k);
    if q < |line| && line[q] == '=' then
      var p := q + 1 + SpacesFrom(line, q + 1);
      var rest := line[p..];
      var v := NonBreakRun(rest);
      if forall j :: v <= j < |rest| ==> IsBreak(rest[j]) then Some((line[..k], rest[..v]))
      else None
    else None
  }

  /** The regular expression's backtracking: the longest key that lets the rest match wins. */
  function SearchKey(line: string, k: nat): Option<(string, string)>
    requires k <= |line|
  {
    if k == 0 then None
    else
      match MatchWithKey(line, k)
      case Some(kv) => Some(kv)
      case None => SearchKey(line, k - 1)
  }

  /** The `(key, value)` groups of a configuration line, or `None` when it does not match. */
  function MatchConfigLine(line: string): (r: Option<(string, string)>)
    ensures r.Some? ==> |r.value.0| >= 1 && ' ' !in r.value.0
    ensures r.Some? ==> '\r' !in r.value.1 && '\n' !in r.value.1
    ensures r.Some? && r.value.1 != [] ==> r.value.1[0] != ' '
  {
    SearchKeyFacts(line, NonSpaceRun(line));
    SearchKey(line, NonSpaceRun(line))
  }

  lemma {:induction false} SearchKeyFacts(line: string, k: nat)
    requires k <= NonSpaceRun(line)
    ensures var r := SearchKey(line, k);
      r.Some? ==> (1 <= |r.value.0| <= k && r.value.0 == line[..|r.value.0|]
        && '\r' !in r.value.1 && '\n' !in r.value.1
        && (r.value.1 != [] ==> r.value.1[0] != ' '))
  {
    if k > 0 {
      if MatchWithKey(line, k).Some? {
        MatchWithKeyFacts(line, k);
      } else {
        SearchKeyFacts(line, k - 1);
      }
    }
  }

  /** A match takes the first `k` characters as key; its value holds no line break and starts with no space. */
  lemma MatchWithKeyFacts(line: string, k: nat)
    requires 1 <= k <= |line|
    ensures var m := MatchWithKey(line, k);
      m.Some? ==> (m.value.0 == line[..k]
        && '\r' !in m.value.1 && '\n' !in m.value.1
        && (m.value.1 != [] ==> m.value.1[0] != ' '))
  {
    var m := MatchWithKey(line, k);
    if m.Some? {
      var q := k + SpacesFrom(line, k);
      var p := q + 1 + SpacesFrom(line, q + 1);
      var rest := line[p..];
      var v := NonBreakRun(rest);
      assert m.value.1 == rest[..v];
      assert forall j :: 0 <= j < v ==> rest[..v][j] == rest[j];
      assert v > 0 ==> rest[0] == line[p];
    }
  }

  /** One step of the reading loop: skip blank, malformed and duplicate lines. */
  function Absorb(acc: map<string, string>, line: string): map<string, string> {
    match Setting(line)
    case None => acc
    case Some(kv) => if kv.0 in acc then acc else acc[kv.0 := kv.1]
  }

  /** The dictionary `readSimpleConfigFile` builds from the given lines. */
  function ParseConfig(lines: seq<string>): map<string, string> {
    if lines == [] then map[] else Absorb(ParseConfig(lines[..|lines| - 1]), lines[|lines| - 1])
  }

  /** The key and value a line contributes, if it is a configuration setting. */
  function Setting(line: string): Option<(string, string)> {
    if IsBlank(line) then None else MatchConfigLine(line)
  }

  /** `line` is a setting for `key`. */
  predicate SetsKey(line: string, key: string) {
    Setting(line).Some? && Setting(line).value.0 == key
  }

  /** Line `j` is the first line that sets `key`. */
  predicate FirstSetter(lines: seq<string>, j: int, key: string) {
    0 <= j < |lines| && SetsKey(lines[j], key) && forall i :: 0 <= i < j ==> !SetsKey(lines[i], key)
  }

  /** One reading step adds `key` only for a setting of `key`, and never changes an earlier value. */
  lemma AbsorbKey(acc: map<string, string>, line: string, key: string)
    ensures key in Absorb(acc, line) <==> key in acc || SetsKey(line, key)
    ensures key in acc ==> Absorb(acc, line)[key] == acc[key]
    ensures key !in acc && SetsKey(line, key) ==> Absorb(acc, line)[key] == Setting(line).value.1
  {
  }

  /** Every key in the result comes from a line that sets it. */
  lemma {:induction false} ParseConfigKeySource(lines: seq<string>, key: string) returns (j: nat)
    requires key in ParseConfig(lines)
    ensures j < |lines| && SetsKey(lines[j], key)
  {
    var init := lines[..|lines| - 1];
    AbsorbKey(ParseConfig(init), lines[|lines| - 1], key);
    if key in ParseConfig(init) {
      j := ParseConfigKeySource(init, key);
      assert init[j] == lines[j];
    } else {
      j := |lines| - 1;
    }
  }

  /** A key some line sets is in the result. */
  lemma {:induction false} ParseConfigKeyKept(lines: seq<string>, key: string, j: nat)
    requires j < |lines| && SetsKey(lines[j], key)
    ensures key in ParseConfig(lines)
  {
    var init := lines[..|lines| - 1];
    AbsorbKey(ParseConfig(init), lines[|lines| - 1], key);
    if j < |init| {
      assert init[j] == lines[j];
      ParseConfigKeyKept(init, key, j);
    }
  }

  /** A key is in the result exactly when some line sets it. */
  lemma ParseConfigHasKey(lines: seq<string>, key: string)
    ensures key in ParseConfig(lines) <==> exists j :: 0 <= j < |lines| && SetsKey(lines[j], key)
  {
    if key in ParseConfig(lines) {
      var j := ParseConfigKeySource(lines, key);
    }
    if exists j :: 0 <= j < |lines| && SetsKey(lines[j], key) {
      var j :| 0 <= j < |lines| && SetsKey(lines[j], key);
      ParseConfigKeyKept(lines, key, j);
    }
  }

  /** For a duplicate key the first setting wins. */
  lemma {:induction false} ParseConfigFirstWins(lines: seq<string>, key: string, j: nat)
    requires FirstSetter(lines, j, key)
    ensures key in ParseConfig(lines) && ParseConfig(lines)[key] == Setting(lines[j]).value.1
  {
    var init := lines[..|lines| - 1];
    AbsorbKey(ParseConfig(init), lines[|lines| - 1], key);
    if j < |init| {
      assert forall i :: 0 <= i <= j ==> init[i] == lines[i];
      assert FirstSetter(init, j, key);
      ParseConfigFirstWins(init, key, j);
    } else {
      if key in ParseConfig(init) {
        // the line setting it would come before the first setter
        var k := ParseConfigKeySource(init, key);
      }
    }
  }

  /** `readSimpleConfigFile` on the text of the file. */
  method ReadSimpleConfig(content: string) returns (ret: map<string, string>)
    ensures ret == ParseConfig(Lines(content))
  {
    var lines := Lines(content);
    ret := map[];
    var i := 0;
    while i < |lines|
      invariant 0 <= i <= |lines|
      invariant ret == ParseConfig(lines[..i])
    {
      assert lines[..i + 1][..i] == lines[..i];
      var line := lines[i];
      if IsBlank(line) {
        // blank lines are skipped
      } else {
        match MatchConfigLine(line)
        case None =>
          // a malformed line is ignored with a warning
        case Some(kv) =>
          if kv.0 !in ret {
            ret := ret[kv.0 := kv.1];
          }
      }
      i := i + 1;
    }
    assert lines[..|lines|] == lines;
  }

  /** The line `writeSimpleConfigFile` writes for one dictionary item. */
  function FormatSetting(key: string, value: string): string {
    key + " = " + value + "\n"
  }

  /** The file text for the items in the dictionary's iteration order. */
  function ConfigText(items: seq<(string, string)>): string {
    if items == [] then [] else ConfigText(items[..|items| - 1]) + FormatSetting(items[|items| - 1].0, items[|items| - 1].1)
  }

  /** `writeSimpleConfigFile`: the text written for the dictionary's items. */
  method WriteSimpleConfig(items: seq<(string, string)>) returns (text: string)
    ensures text == ConfigText(items)
  {
    text := [];
    for i := 0 to |items|
      invariant text == ConfigText(items[..i])
    {
      assert items[..i + 1][..i] == items[..i];
      var (k, v) := items[i];
      text := text + FormatSetting(k, v);
    }
    assert items[..|items|] == items;
  }

  /** The dictionary whose iteration order is `items`. */
  function ToMap(items: seq<(string, string)>): map<string, string> {
    if items == [] then map[] else ToMap(items[..|items| - 1])[items[|items| - 1].0 := items[|items| - 1].1]
  }

  predicate DistinctKeys(items: seq<(string, string)>) {
    forall i, j :: 0 <= i < j < |items| ==> items[i].0 != items[j].0
  }

  /** A key and a value that the file format can carry. */
  predicate Writable(key: string, value: string) {
    && key != [] && ' ' !in key && '\n' !in key
    && '\r' !in value && '\n' !in value
    && (value != [] ==> value[0] != ' ')
  }

  /** Writing a dictionary and reading the file back gives the same dictionary. */
  lemma {:induction false} ConfigRoundTrip(items: seq<(string, string)>)
    requires DistinctKeys(items)
    requires forall i :: 0 <= i < |items| ==> Writable(items[i].0, items[i].1)
    ensures ParseConfig(Lines(ConfigText(items))) == ToMap(items)
  {
    LinesOfConfigText(items);
    ParseFormatted(items);
  }

  function FormattedLines(items: seq<(string, string)>): (ls: seq<string>)
    ensures |ls| == |items|
  {
    if items == [] then [] else FormattedLines(items[..|items| - 1]) + [FormatSetting(items[|items| - 1].0, items[|items| - 1].1)]
  }

  lemma {:induction false} ParseFormatted(items: seq<(string, string)>)
    requires DistinctKeys(items)
    requires forall i :: 0 <= i < |items| ==> Writable(items[i].0, items[i].1)
    ensures ParseConfig(FormattedLines(items)) == ToMap(items)
  {
    if items != [] {
      var n := |items| - 1;
      var init, k, v := items[..n], items[n].0, items[n].1;
      LastItem(items);
      ParseFormatted(init);
      var ls := FormattedLines(items);
      ReadFormattedSetting(k, v);
      ToMapMissing(init, k);
      AbsorbNew(ParseConfig(FormattedLines(init)), FormatSetting(k, v), k, v);
      ParseConfigLast(ls);
    }
  }

  /** The items before the last keep the preconditions, and none carries the last item's key. */
  lemma LastItem(items: seq<(string, string)>)
    requires items != [] && DistinctKeys(items)
    requires forall i :: 0 <= i < |items| ==> Writable(items[i].0, items[i].1)
    ensures var n := |items| - 1;
      && DistinctKeys(items[..n])
      && (forall i :: 0 <= i < n ==> Writable(items[..n][i].0, items[..n][i].1))
      && (forall i :: 0 <= i < n ==> items[..n][i].0 != items[n].0)
      && FormattedLines(items) == FormattedLines(items[..n]) + [FormatSetting(items[n].0, items[n].1)]
  {
    var n := |items| - 1;
    assert forall i :: 0 <= i < n ==> items[..n][i] == items[i];
  }

  lemma ParseConfigLast(lines: seq<string>)
    requires lines != []
    ensures ParseConfig(lines) == Absorb(ParseConfig(lines[..|lines| - 1]), lines[|lines| - 1])
  {
  }

  /** A setting for a key not yet read is added. */
  lemma AbsorbNew(acc: map<string, string>, line: string, key: string, value: string)
    requires Setting(line) == Some((key, value)) && key !in acc
    ensures Absorb(acc, line) == acc[key := value]
  {
  }

  /** A key no item carries is not in the dictionary. */
  lemma {:induction false} ToMapMissing(items: seq<(string, string)>, key: string)
    requires forall i :: 0 <= i < |items| ==> items[i].0 != key
    ensures key !in ToMap(items)
  {
    if items != [] {
      ToMapMissing(items[..|items| - 1], key);
    }
  }

  /** The dictionary's keys are exactly the items' keys. */
  lemma {:induction false} ToMapKeys(items: seq<(string, string)>)
    ensures ToMap(items).Keys == set i | 0 <= i < |items| :: items[i].0
  {
    if items != [] {
      var n := |items| - 1;
      ToMapKeys(items[..n]);
      assert (set i | 0 <= i < |items| :: items[i].0) == (set i | 0 <= i < n :: items[..n][i].0) + {items[n].0};
    }
  }

  /** One written line reads back as its key and value. */
  lemma ReadFormattedSetting(key: string, value: string)
    requires Writable(key, value)
    ensures Setting(FormatSetting(key, value)) == Some((key, value))
  {
    var line := FormatSetting(key, value);
    FormattedNotBlank(key, value);
    FormattedKeyRun(key, value);
    FormattedMatch(key, value);
  }

  lemma FormattedNotBlank(key: string, value: string)
    ensures !IsBlank(FormatSetting(key, value))
  {
    var line := FormatSetting(key, value);
    assert line == (key + " = " + value) + "\n";
    NotBlankAt(line, |key| + 1);
  }

  lemma NotBlankAt(line: string, i: nat)
    requires i < |line| - 1 && line[|line| - 1] == '\n' && line[i] != ' ' && line[i] != '\t'
    ensures !IsBlank(line)
  {
    assert LineBody(line)[i] == line[i];
  }

  lemma FormattedKeyRun(key: string, value: string)
    requires Writable(key, value)
    ensures NonSpaceRun(FormatSetting(key, value)) == |key|
  {
    var line := FormatSetting(key, value);
    var n, m := |key|, NonSpaceRun(line);
    assert line[n] == ' ';
    assert forall j :: 0 <= j < n ==> line[j] == key[j];
    assert forall j :: 0 <= j < n ==> line[j] != ' ';
  }

  lemma FormattedMatch(key: string, value: string)
    requires Writable(key, value)
    ensures MatchWithKey(FormatSetting(key, value), |key|) == Some((key, value))
  {
    var line := FormatSetting(key, value);
    var n, v := |key|, |value|;
    FormatSettingShape(key, value);
    forall j | n + 3 <= j < |line| ensures line[j] == (value + "\n")[j - n - 3] {
    }
    assert line[n + 3..n + 3 + v] == value;
    MatchSpacedEquals(line, n, v);
  }

  /** A line `key = value` followed by line breaks only, where the value starts with no space, matches with that key. */
  lemma MatchSpacedEquals(line: string, k: nat, v: nat)
    requires 1 <= k && k + 3 + v < |line|
    requires line[k] == ' ' && line[k + 1] == '=' && line[k + 2] == ' ' && line[k + 3] != ' '
    requires forall j :: k + 3 <= j < k + 3 + v ==> !IsBreak(line[j])
    requires forall j :: k + 3 + v <= j < |line| ==> IsBreak(line[j])
    ensures MatchWithKey(line, k) == Some((line[..k], line[k + 3..k + 3 + v]))
  {
    assert SpacesFrom(line, k) == 1;
    assert SpacesFrom(line, k + 2) == 1;
    var rest := line[k + 3..];
    assert NonBreakRun(rest) == v by {
      assert IsBreak(rest[v]);
      assert forall j :: 0 <= j < v ==> !IsBreak(rest[j]);
    }
    assert rest[..v] == line[k + 3..k + 3 + v];
  }

  /** Where the key, the spaced `=` and the value sit in a written line. */
  lemma FormatSettingShape(key: string, value: string)
    ensures var line, n := FormatSetting(key, value), |key|;
      && |line| == n + |value| + 4
      && line[..n] == key && line[n] == ' ' && line[n + 1] == '=' && line[n + 2] == ' '
      && line[n + 3..] == value + "\n"
  {
    var line := FormatSetting(key, value);
    assert line == key + (" = " + (value + "\n"));
  }

  lemma {:induction false} LinesOfConfigText(items: seq<(string, string)>)
    requires forall i :: 0 <= i < |items| ==> Writable(items[i].0, items[i].1)
    ensures Lines(ConfigText(items)) == FormattedLines(items)
  {
    if items != [] {
      var init := items[..|items| - 1];
      var (k, v) := items[|items| - 1];
      LinesOfConfigText(init);
      LinesAppendLine(ConfigText(init), FormatSetting(k, v));
    }
  }

  predicate EndsLine(s: string) {
    s == [] || s[|s| - 1] == '\n'
  }

  /** A single complete line reads back as one line. */
  lemma OneLine(line: string)
    requires |line| >= 1 && line[|line| - 1] == '\n' && '\n' !in line[..|line| - 1]
    ensures Lines(line) == [line]
  {
    assert forall j :: 0 <= j < |line| - 1 ==> line[j] != '\n' by {
      forall j | 0 <= j < |line| - 1 ensures line[j] != '\n' {
        assert line[j] == line[..|line| - 1][j];
      }
    }
    assert IndexOf(line, '\n') == |line| - 1;
    assert line[..|line|] == line;
  }

  /** Appending one complete line adds it as the last element of `readlines()`. */
  lemma {:induction false} LinesAppendLine(a: string, line: string)
    requires EndsLine(a)
    requires |line| >= 1 && line[|line| - 1] == '\n' && '\n' !in line[..|line| - 1]
    ensures Lines(a + line) == Lines(a) + [line]
    decreases |a|
  {
    if a == [] {
      assert a + line == line;
      OneLine(line);
    } else {
      var i := IndexOf(a, '\n');
      assert a[|a| - 1] == '\n';
      IndexOfExtend(a, '\n', line);
      LinesStep(a, line, i);
      var tail := a[i + 1..];
      assert EndsLine(tail) by {
        if tail != [] {
          assert tail[|tail| - 1] == a[|a| - 1];
        }
      }
      LinesAppendLine(tail, line);
      assert [a[..i + 1]] + (Lines(tail) + [line]) == ([a[..i + 1]] + Lines(tail)) + [line];
    }
  }

  /** The first line of `a + line` is the first line of `a`, when `a` has one. */
  lemma LinesStep(a: string, line: string, i: nat)
    requires i < |a| && i == IndexOf(a, '\n') && IndexOf(a + line, '\n') == i
    ensures Lines(a) == [a[..i + 1]] + Lines(a[i + 1..])
    ensures Lines(a + line) == [a[..i + 1]] + Lines(a[i + 1..] + line)
  {
    LinesUnfold(a, i);
    LinesUnfold(a + line, i);
    SliceAppend(a, line, i + 1);
  }

  lemma LinesUnfold(s: string, i: nat)
    requires i == IndexOf(s, '\n') < |s|
    ensures Lines(s) == [s[..i + 1]] + Lines(s[i + 1..])
  {
  }

  lemma SliceAppend<T>(a: seq<T>, b: seq<T>, n: nat)
    requires n <= |a|
    ensures (a + b)[..n] == a[..n] && (a + b)[n..] == a[n..] + b
  {
  }

  // ---------------------------------------------------------------------
  // partition

  function Flatten<T>(chunks: seq<seq<T>>): seq<T> {
    if chunks == [] then [] else Flatten(chunks[..|chunks| - 1]) + chunks[|chunks| - 1]
  }

  /**
    `partition(list, size)`: consecutive slices of `size` elements. A zero
    step makes Python's `range` raise; a negative step gives an empty range.
   */
  method Partition<T>(xs: seq<T>, size: int) returns (r: Result<seq<seq<T>>, string>)
    ensures size == 0 <==> r.Err?
    ensures size < 0 ==> r == Ok([])
    ensures size > 0 ==> r.Ok? && Flatten(r.value) == xs
    ensures size > 0 ==> r.Ok? && forall i :: 0 <= i < |r.value| ==> 1 <= |r.value[i]| <= size
    ensures size > 0 ==> r.Ok? && forall i :: 0 <= i < |r.value| - 1 ==> |r.value[i]| == size
  {
    if size == 0 {
      return Err("range() step argument must not be zero");
    }
    if size < 0 {
      return Ok([]);
    }
    var chunks: seq<seq<T>> := [];
    var start := 0;
    while start < |xs|
      invariant start <= |xs| && Flatten(chunks) == xs[..start]
      invariant Sized(chunks, size) && (start < |xs| ==> AllFull(chunks, size))
      decreases |xs| - start
    {
      // the last slice `xs[start:start + size]` stops at the end of the list
      var end := if start + size <= |xs| then start + size else |xs|;
      var chunk := xs[start..end];
      FlattenAppend(chunks, chunk);
      SizedAppend(chunks, chunk, size);
      assert xs[..start] + chunk == xs[..end];
      chunks := chunks + [chunk];
      start := end;
    }
    assert xs[..start] == xs;
    return Ok(chunks);
  }

  /** Every chunk holds between one and `size` elements, and all but the last exactly `size`. */
  predicate Sized<T>(chunks: seq<seq<T>>, size: int) {
    forall i :: 0 <= i < |chunks| ==> 1 <= |chunks[i]| <= size && (i < |chunks| - 1 ==> |chunks[i]| == size)
  }

  predicate AllFull<T>(chunks: seq<seq<T>>, size: int) {
    forall i :: 0 <= i < |chunks| ==> |chunks[i]| == size
  }

  lemma SizedAppend<T>(chunks: seq<seq<T>>, chunk: seq<T>, size: int)
    requires AllFull(chunks, size) && 1 <= |chunk| <= size
    ensures Sized(chunks + [chunk], size)
    ensures |chunk| == size ==> AllFull(chunks + [chunk], size)
  {
    var c := chunks + [chunk];
    assert forall i :: 0 <= i < |chunks| ==> c[i] == chunks[i];
  }

  lemma FlattenAppend<T>(chunks: seq<seq<T>>, chunk: seq<T>)
    ensures Flatten(chunks + [chunk]) == Flatten(chunks) + chunk
  {
    assert (chunks + [chunk])[..|chunks|] == chunks;
  }

  // ---------------------------------------------------------------------
  // clampText

  /** Python's `s[:n]`, where a negative `n` counts from the end. */
  function PrefixTo(s: string, n: int): (r: string)
    ensures |r| <= |s| && r == s[..|r|]
    ensures 0 <= n <= |s| ==> |r| == n
  {
    if n >= 0 then (if n <= |s| then s[..n] else s)
    else if |s| + n >= 0 then s[..|s| + n] else []
  }

  /** `clampText(text, maxLength)`. */
  function ClampText(text: string, maxLength: int): (r: string)
    ensures |text| <= maxLength ==> r == text
    ensures maxLength >= 3 ==> |r| <= maxLength
    ensures maxLength >= 3 && |text| > maxLength ==>
      |r| == maxLength && r[..maxLength - 3] == text[..maxLength - 3] && r[maxLength - 3..] == "..."
  {
    if |text| > maxLength then PrefixTo(text, maxLength - 3) + "..." else text
  }

  /** Clamping twice to the same length changes nothing more. */
  lemma ClampTextIdempotent(text: string, maxLength: int)
    requires maxLength >= 3
    ensures ClampText(ClampText(text, maxLength), maxLength) == ClampText(text, maxLength)
  {
  }

  // ---------------------------------------------------------------------
  // ExponentialBackoffTracker

  function Pow2(k: nat): (p: nat)
    ensures p >= 1
  {
    if k == 0 then 1 else 2 * Pow2(k - 1)
  }

  class ExponentialBackoffTracker {
    const baseDelay: int
    var currentDelay: int
    /** Calls of `NextDelay` since construction or the last `Reset`. */
    ghost var calls: nat

    ghost predicate Valid()
      reads this
    {
      currentDelay == baseDelay * Pow2(calls)
    }

    constructor (baseDelay: int)
      ensures Valid() && this.baseDelay == baseDelay && calls == 0
    {
      this.baseDelay := baseDelay;
      currentDelay := baseDelay;
      calls := 0;
    }

    /** The k-th delay since construction or reset is `baseDelay * 2^k`. */
    method NextDelay() returns (rv: int)
      requires Valid()
      modifies this
      ensures Valid() && calls == old(calls) + 1
      ensures rv == baseDelay * Pow2(old(calls))
    {
      rv := currentDelay;
      currentDelay := currentDelay * 2;
      calls := calls + 1;
    }

    method Reset()
      modifies this
      ensures Valid() && calls == 0 && currentDelay == baseDelay
    {
      currentDelay := baseDelay;
      calls := 0;
    }
  }

  // ---------------------------------------------------------------------
  // formatTimeForUser

  const SecondsPerDay := 86400

  /**
    `formatTimeForUser(seconds, sign)` for whole seconds. `time.gmtime` keeps
    the time of day only, so hours are counted modulo 24; Dafny's `%` with a
    positive divisor floors like the C library does for negative times.
   */
  function FormatTimeForUser(seconds: int, sign: int): string {
    var t := seconds % SecondsPerDay;
    var h, m, s := t / 3600, t % 3600 / 60, t % 60;
    var prefix := if sign < 0 then "-" else "";
    if 0 <= seconds < 3600 then prefix + NatToString(m) + ":" + ZeroPad(s, 2)
    else prefix + NatToString(h) + ":" + ZeroPad(m, 2) + ":" + ZeroPad(s, 2)
  }

  /** Reads `[-]m:ss` or `[-]h:mm:ss` back into a sign and a number of seconds. */
  function ReadClock(text: string): Option<(bool, nat)> {
    var negative := text != [] && text[0] == '-';
    var body := if negative then text[1..] else text;
    match ClockValue(Split(body, ':'))
    case Some(v) => Some((negative, v))
    case None => None
  }

  /** The seconds denoted by the fields `m, ss` or `h, mm, ss`. */
  function ClockValue(parts: seq<string>): Option<nat> {
    if (forall i :: 0 <= i < |parts| ==> AllDigits(parts[i])) then
      if |parts| == 2 then Some(ParseNat(parts[0]) * 60 + ParseNat(parts[1]))
      else if |parts| == 3 then Some(ParseNat(parts[0]) * 3600 + ParseNat(parts[1]) * 60 + ParseNat(parts[2]))
      else None
    else None
  }

  /** The colon-separated fields of the display, without the sign. */
  function ClockFields(seconds: int): seq<string> {
    FieldsOfTime(seconds % SecondsPerDay, 0 <= seconds < 3600)
  }

  /** The fields for time of day `t`, in the short or the long form. */
  function FieldsOfTime(t: nat, short: bool): seq<string> {
    if short then [DecimalField(t % 3600 / 60, true), DecimalField(t % 60, false)]
    else [DecimalField(t / 3600, true), DecimalField(t % 3600 / 60, false), DecimalField(t % 60, false)]
  }

  lemma ClockFieldsFacts(seconds: int)
    ensures var parts := ClockFields(seconds);
      (forall i :: 0 <= i < |parts| ==> |parts[i]| >= 1 && AllDigits(parts[i]) && ':' !in parts[i])
    ensures ClockValue(ClockFields(seconds)) == Some(seconds % SecondsPerDay)
  {
    var short := 0 <= seconds < 3600;
    if short {
      ShortClock(seconds);
    }
    FieldsOfTimeFacts(seconds % SecondsPerDay, short);
  }

  lemma FieldsOfTimeFacts(t: nat, short: bool)
    requires short ==> t < 3600
    ensures var parts := FieldsOfTime(t, short);
      (forall i :: 0 <= i < |parts| ==> |parts[i]| >= 1 && AllDigits(parts[i]) && ':' !in parts[i])
    ensures ClockValue(FieldsOfTime(t, short)) == Some(t)
  {
    ClockArith(t);
    if short {
      assert t / 3600 == 0;
      ShortFieldsFacts(t % 3600 / 60, t % 60);
    } else {
      LongFieldsFacts(t / 3600, t % 3600 / 60, t % 60);
    }
  }

  /** The fields `m:ss` hold digits only and read back as `m` minutes and `sec` seconds. */
  lemma ShortFieldsFacts(m: nat, sec: nat)
    requires m < 60 && sec < 60
    ensures var parts := [DecimalField(m, true), DecimalField(sec, false)];
      && (forall i :: 0 <= i < |parts| ==> |parts[i]| >= 1 && AllDigits(parts[i]) && ':' !in parts[i])
      && ClockValue(parts) == Some(m * 60 + sec)
  {
    DecimalFieldFacts(m, true);
    DecimalFieldFacts(sec, false);
    var parts := [DecimalField(m, true), DecimalField(sec, false)];
    assert forall i :: 0 <= i < |parts| ==> AllDigits(parts[i]);
    assert ClockValue(parts) == Some(ParseNat(parts[0]) * 60 + ParseNat(parts[1]));
  }

  /** The fields `h:mm:ss` hold digits only and read back as `h` hours, `m` minutes and `sec` seconds. */
  lemma LongFieldsFacts(h: nat, m: nat, sec: nat)
    requires m < 60 && sec < 60
    ensures var parts := [DecimalField(h, true), DecimalField(m, false), DecimalField(sec, false)];
      && (forall i :: 0 <= i < |parts| ==> |parts[i]| >= 1 && AllDigits(parts[i]) && ':' !in parts[i])
      && ClockValue(parts) == Some(h * 3600 + m * 60 + sec)
  {
    DecimalFieldFacts(h, true);
    DecimalFieldFacts(m, false);
    DecimalFieldFacts(sec, false);
    var parts := [DecimalField(h, true), DecimalField(m, false), DecimalField(sec, false)];
    assert forall i :: 0 <= i < |parts| ==> AllDigits(parts[i]);
    assert ClockValue(parts) == Some(ParseNat(parts[0]) * 3600 + ParseNat(parts[1]) * 60 + ParseNat(parts[2]));
  }

  /** `%d` (when `plain`) or `%02u` of `n`. */
  function DecimalField(n: nat, plain: bool): string {
    if plain then NatToString(n) else ZeroPad(n, 2)
  }

  /** A field printed for a number reads back as that number and holds no colon. */
  lemma DecimalFieldFacts(n: nat, plain: bool)
    requires plain || n < 100
    ensures var s := DecimalField(n, plain);
      |s| >= 1 && AllDigits(s) && ':' !in s && ParseNat(s) == n
  {
    assert Pow10(2) == 100;
    var s := DecimalField(n, plain);
    if plain { ParseNatToString(n); } else { ZeroPadExact(n, 2); }
    assert forall i :: 0 <= i < |s| ==> s[i] != ':';
  }

  lemma ClockArith(t: int)
    ensures var h, m, s := t / 3600, t % 3600 / 60, t % 60;
      0 <= m < 60 && 0 <= s < 60 && h * 3600 + m * 60 + s == t
  {
    var h, r := t / 3600, t % 3600;
    assert t == 3600 * h + r;
    var m, s := r / 60, r % 60;
    assert r == 60 * m + s && 0 <= s < 60;
    assert t == 60 * (60 * h + m) + s;
    ModOfMultiple(60 * h + m, s);
  }

  lemma ModOfMultiple(q: int, s: int)
    requires 0 <= s < 60
    ensures (60 * q + s) % 60 == s
  {
  }

  lemma ShortClock(seconds: int)
    requires 0 <= seconds < 3600
    ensures seconds % SecondsPerDay == seconds && seconds / 3600 == 0
  {
  }

  lemma Join2Shape(p: string, a: string, b: string)
    ensures p + Join([a, b], ':') == p + a + ":" + b
  {
    Join2(a, b, ':');
  }

  lemma Join3Shape(p: string, a: string, b: string, d: string)
    ensures p + Join([a, b, d], ':') == p + a + ":" + b + ":" + d
  {
    Join3(a, b, d, ':');
  }

  lemma Join2(a: string, b: string, c: char)
    ensures Join([a, b], c) == a + [c] + b
  {
    assert [a, b][1..] == [b];
  }

  lemma Join3(a: string, b: string, d: string, c: char)
    ensures Join([a, b, d], c) == a + [c] + b + [c] + d
  {
    assert [a, b, d][1..] == [b, d];
    Join2(b, d, c);
  }

  lemma FormatTimeAsFields(seconds: int, sign: int)
    ensures FormatTimeForUser(seconds, sign) == (if sign < 0 then "-" else "") + Join(ClockFields(seconds), ':')
  {
    var t := seconds % SecondsPerDay;
    var m, sec := t % 3600 / 60, t % 60;
    var prefix := if sign < 0 then "-" else "";
    if 0 <= seconds < 3600 {
      assert ClockFields(seconds) == [NatToString(m), ZeroPad(sec, 2)];
      Join2Shape(prefix, NatToString(m), ZeroPad(sec, 2));
    } else {
      assert ClockFields(seconds) == [NatToString(t / 3600), ZeroPad(m, 2), ZeroPad(sec, 2)];
      Join3Shape(prefix, NatToString(t / 3600), ZeroPad(m, 2), ZeroPad(sec, 2));
    }
  }

  /** A signed text made of colon-separated fields reads back as the sign and the fields' value. */
  lemma ReadClockOfFields(negative: bool, parts: seq<string>)
    requires |parts| >= 1
    requires forall i :: 0 <= i < |parts| ==> |parts[i]| >= 1 && AllDigits(parts[i]) && ':' !in parts[i]
    ensures ReadClock((if negative then "-" else "") + Join(parts, ':')) ==
      match ClockValue(parts) case Some(v) => Some((negative, v)) case None => None
  {
    var body := Join(parts, ':');
    var text := (if negative then "-" else "") + body;
    JoinStartsWithFirst(parts, ':');
    assert IsDigit(parts[0][0]);
    assert body[0] == parts[0][0];
    assert (text != [] && text[0] == '-') == negative;
    assert (if negative then text[1..] else text) == body;
    SplitJoin(parts, ':');
  }

  lemma JoinStartsWithFirst(parts: seq<string>, c: char)
    requires |parts| >= 1
    ensures |parts[0]| <= |Join(parts, c)| && Join(parts, c)[..|parts[0]|] == parts[0]
  {
    if |parts| > 1 {
      assert Join(parts, c) == parts[0] + ([c] + Join(parts[1..], c));
    }
  }

  /**
    The display shows the sign and the time of day the seconds denote: reading
    it back gives `seconds` modulo one day.
   */
  lemma FormatTimeReadBack(seconds: int, sign: int)
    ensures ReadClock(FormatTimeForUser(seconds, sign)) == Some((sign < 0, seconds % SecondsPerDay))
  {
    ClockFieldsFacts(seconds);
    FormatTimeAsFields(seconds, sign);
    ReadClockOfFields(sign < 0, ClockFields(seconds));
  }

  /** The short form `m:ss` is used exactly for durations from zero up to an hour. */
  lemma FormatTimeShortForm(seconds: int, sign: int)
    ensures |Split(FormatTimeForUser(seconds, sign), ':')| == (if 0 <= seconds < 3600 then 2 else 3)
  {
    var prefix := if sign < 0 then "-" else "";
    var parts := ClockFields(seconds);
    ClockFieldsFacts(seconds);
    FormatTimeAsFields(seconds, sign);
    JoinHead(prefix, parts);
  }

  lemma JoinHead(prefix: string, parts: seq<string>)
    requires |parts| >= 1
    requires forall i :: 0 <= i < |parts| ==> ':' !in parts[i]
    requires ':' !in prefix
    ensures Split(prefix + Join(parts, ':'), ':') == [prefix + parts[0]] + parts[1..]
  {
    var ps := [prefix + parts[0]] + parts[1..];
    assert Join(ps, ':') == prefix + Join(parts, ':');
    SplitJoin(ps, ':');
  }

  // ---------------------------------------------------------------------
  // unicodify

  newtype byte = x: int | 0 <= x < 256

  /** The Python values `unicodify` walks: byte strings, text, lists, dicts and other leaves. */
  datatype PyValue =
    | Bytes(bytes: seq<byte>)
    | Unicode(text: string)
    | List(items: seq<PyValue>)
    | Dict(entries: seq<DictEntry>)
    | Leaf(repr: string)

  datatype DictEntry = Entry(key: PyValue, value: PyValue)

  /** `b.decode('ascii', 'replace')`: bytes above 127 become U+FFFD. */
  function DecodeAsciiReplace(b: seq<byte>): (s: string)
    ensures |s| == |b|
    ensures forall i :: 0 <= i < |b| ==> s[i] == (if b[i] < 128 then b[i] as int as char else '�')
  {
    seq(|b|, i requires 0 <= i < |b| => if b[i] < 128 then b[i] as int as char else '�')
  }

  /** `unicodify(d)`: byte strings become text; list items and dict values are converted recursively. */
  function Unicodify(d: PyValue): PyValue
    decreases d
  {
    match d
    case Bytes(b) => Unicode(DecodeAsciiReplace(b))
    case List(items) => List(seq(|items|, i requires 0 <= i < |items| => Unicodify(items[i])))
    case Dict(entries) => Dict(seq(|entries|, i requires 0 <= i < |entries| => Entry(entries[i].key, Unicodify(entries[i].value))))
    case _ => d
  }

  /** `a` and `b` have the same lists and dicts, with the same dict keys; only leaves may differ. */
  predicate SameShape(a: PyValue, b: PyValue)
    decreases a
  {
    match a
    case List(xs) => b.List? && |b.items| == |xs| && forall i :: 0 <= i < |xs| ==> SameShape(xs[i], b.items[i])
    case Dict(es) =>
      b.Dict? && |b.entries| == |es|
      && forall i :: 0 <= i < |es| ==> b.entries[i].key == es[i].key && SameShape(es[i].value, b.entries[i].value)
    case _ => !b.List? && !b.Dict?
  }

  /** No byte string is reachable through lists and dict values. */
  predicate NoBytes(d: PyValue)
    decreases d
  {
    match d
    case Bytes(_) => false
    case List(xs) => forall i :: 0 <= i < |xs| ==> NoBytes(xs[i])
    case Dict(es) => forall i :: 0 <= i < |es| ==> NoBytes(es[i].value)
    case _ => true
  }

  /** `unicodify` keeps the shape, leaves no byte string behind, and changes nothing else. */
  lemma {:induction false} UnicodifySpec(d: PyValue)
    ensures SameShape(d, Unicodify(d))
    ensures NoBytes(Unicodify(d))
    ensures NoBytes(d) ==> Unicodify(d) == d
    decreases d
  {
    match d
    case List(xs) =>
      forall i | 0 <= i < |xs| ensures SameShape(xs[i], Unicodify(xs[i])) && NoBytes(Unicodify(xs[i]))
        && (NoBytes(xs[i]) ==> Unicodify(xs[i]) == xs[i])
      {
        UnicodifySpec(xs[i]);
      }
    case Dict(es) =>
      forall i | 0 <= i < |es| ensures SameShape(es[i].value, Unicodify(es[i].value)) && NoBytes(Unicodify(es[i].value))
        && (NoBytes(es[i].value) ==> Unicodify(es[i].value) == es[i].value)
      {
        UnicodifySpec(es[i].value);
      }
      if NoBytes(d) {
        var u := Unicodify(d);
        assert forall i :: 0 <= i < |es| ==> u.entries[i] == es[i];
      }
    case _ =>
  }

  /**
    `unicodify` as the source runs it: each list item and each dict value is
    replaced, position by position, by its converted form.
   */
  method UnicodifyValue(d: PyValue) returns (r: PyValue)
    ensures r == Unicodify(d)
    decreases d
  {
    match d {
      case Bytes(b) =>
        r := Unicode(DecodeAsciiReplace(b));
      case List(items) =>
        var xs := items;
        var k := 0;
        while k < |xs|
          invariant 0 <= k <= |xs| == |items|
          invariant forall j :: 0 <= j < k ==> xs[j] == Unicodify(items[j])
          invariant forall j :: k <= j < |xs| ==> xs[j] == items[j]
        {
          var v := UnicodifyValue(items[k]);
          xs := xs[k := v];
          k := k + 1;
        }
        r := List(xs);
      case Dict(entries) =>
        var es := entries;
        var k := 0;
        while k < |es|
          invariant 0 <= k <= |es| == |entries|
          invariant forall j :: 0 <= j < k ==> es[j] == Entry(entries[j].key, Unicodify(entries[j].value))
          invariant forall j :: k <= j < |es| ==> es[j] == entries[j]
        {
          var v := UnicodifyValue(entries[k].value);
          es := es[k := Entry(entries[k].key, v)];
          k := k + 1;
        }
        r := Dict(es);
      case _ =>
        r := d;
    }
  }
}
