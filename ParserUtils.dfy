/**
 * The text helpers of src/parser-utils.ts: delimiter trimming, splitting
 * into trimmed fields, lines and blank-line sections, the "line labelled
 * `label`" completion test and the labelled key/value parser.
 *
 * `EOL` is a line feed; `trim`'s delimiter and `endAfterLabel`'s label are
 * literal text rather than regular-expression source.
 */
module ParserUtils {
  import opened Wrappers
  import opened Strings

  /**
   * The characters `String.prototype.trim` removes: ECMAScript's WhiteSpace
   * (tab, vertical tab, form feed, space, no-break space, byte order mark
   * and the space separators) and LineTerminator (line feed, carriage
   * return, line and paragraph separator).
   */
  const Whitespace: set<char> := {
    '\t', '\U{000B}', '\U{000C}', ' ', '\U{00A0}', '\U{FEFF}',
    '\U{1680}', '\U{2000}', '\U{2001}', '\U{2002}', '\U{2003}', '\U{2004}',
    '\U{2005}', '\U{2006}', '\U{2007}', '\U{2008}', '\U{2009}', '\U{200A}',
    '\U{202F}', '\U{205F}', '\U{3000}',
    '\n', '\r', '\U{2028}', '\U{2029}'
  }

  /** The characters a regular expression's `.` does not match. */
  const LineTerminators: set<char> := {'\n', '\r', '\U{2028}', '\U{2029}'}

  /** `s.trim()`. */
  function TrimSpace(s: string): string
  {
    Strip(s, Whitespace)
  }

  /** `s` has no whitespace at either end. */
  predicate IsTrimmed(s: string)
  {
    s == [] || (s[0] !in Whitespace && s[|s| - 1] !in Whitespace)
  }

  /**
   * `trim(text, delimiter)`: `text` without its leading and trailing runs
   * of `delimiter`, so that it neither starts nor ends with it.
   */
  function Trim(text: string, delimiter: char): (r: string)
    ensures r == [] || (r[0] != delimiter && r[|r| - 1] != delimiter)
  {
    Strip(text, {delimiter})
  }

  /**
   * `split(text, delimiter)`: `text.split(delimiter)` with every field
   * trimmed of whitespace. An empty delimiter splits into single
   * characters (none for the empty text); otherwise there is one field more
   * than there are delimiter occurrences.
   */
  function Split(text: string, delimiter: string): (r: seq<string>)
    ensures delimiter == "" ==> |r| == |text|
    ensures delimiter != "" ==> |r| == Count(text, delimiter) + 1
    ensures forall k :: 0 <= k < |r| ==> IsTrimmed(r[k])
  {
    if delimiter == "" then
      seq(|text|, i requires 0 <= i < |text| => TrimSpace([text[i]]))
    else
      var fields := Fields(text, delimiter);
      FieldsCount(text, delimiter);
      seq(|fields|, k requires 0 <= k < |fields| => TrimSpace(fields[k]))
  }

  /**
   * Fields that hold no one-character delimiter `c`, joined with `c` and
   * split again, come back as the same fields, each trimmed.
   */
  lemma SplitOfJoin(fs: seq<string>, c: char)
    requires |fs| >= 1
    requires forall k :: 0 <= k < |fs| ==> c !in fs[k]
    ensures Split(Join(fs, [c]), [c]) == seq(|fs|, k requires 0 <= k < |fs| => TrimSpace(fs[k]))
  {
    FieldsOfJoin(fs, c);
  }

  /** `lines(content)`: the trimmed lines, one more than there are line feeds. */
  function Lines(content: string): (r: seq<string>)
    ensures |r| == multiset(content)['\n'] + 1
  {
    CountChar(content, '\n');
    Split(content, EOL)
  }

  /** `sections(content)`: the trimmed blocks between blank-line separators. */
  function Sections(content: string): (r: seq<string>)
    ensures |r| == Count(content, EOL + EOL) + 1
  {
    Split(content, EOL + EOL)
  }

  /**
   * Joining lines that hold no line feed and splitting them again gives
   * back each line, trimmed.
   */
  lemma LinesOfJoin(ls: seq<string>)
    requires |ls| >= 1
    requires forall k :: 0 <= k < |ls| ==> '\n' !in ls[k]
    ensures |Lines(Join(ls, EOL))| == |ls|
    ensures forall k :: 0 <= k < |ls| ==> Lines(Join(ls, EOL))[k] == TrimSpace(ls[k])
  {
    SplitOfJoin(ls, '\n');
  }

  /**
   * Starting at `i`, `text` holds `label: `, then a run of characters none
   * of which ends a line, then the `EOL` at `j`.
   */
  ghost predicate LabeledLineAt(tag: string, text: string, i: int, j: int)
  {
    && OccursAt(text, tag + ": ", i)
    && i + |tag| + 2 <= j < |text|
    && text[j] == '\n'
    && (forall k :: i + |tag| + 2 <= k < j ==> text[k] !in LineTerminators)
  }

  /** `text` has a match of the pattern `label: .*EOL`. */
  ghost predicate HasLabeledLine(tag: string, text: string)
  {
    exists i, j :: LabeledLineAt(tag, text, i, j)
  }

  /** `s[j]` is a line feed and no line terminator comes before it. */
  ghost predicate LineEndAt(s: string, j: int)
  {
    0 <= j < |s| && s[j] == '\n' && forall k :: 0 <= k < j ==> s[k] !in LineTerminators
  }

  /** The first line terminator of `s` exists and is a line feed (`.*EOL` at the start of `s`). */
  function EndsLine(s: string): bool
    decreases |s|
  {
    if s == [] then false
    else if s[0] == '\n' then true
    else if s[0] in LineTerminators then false
    else EndsLine(s[1..])
  }

  /**
   * `endAfterLabel(label)(text)`: whether `label: ` followed by the rest of
   * a line and `EOL` occurs anywhere in `text`, trying each start in turn.
   */
  function EndAfterLabel(tag: string, text: string): bool
    decreases |text|
  {
    if text == [] then false
    else
      (OccursAt(text, tag + ": ", 0) && EndsLine(text[|tag| + 2..]))
      || EndAfterLabel(tag, text[1..])
  }

  /** Past a first character that ends no line, a line end moves by one. */
  lemma LineEndAtTail(s: string, j: int)
    requires |s| > 0 && s[0] !in LineTerminators && j >= 0
    ensures LineEndAt(s[1..], j) <==> LineEndAt(s, j + 1)
  {
    if LineEndAt(s[1..], j) {
      forall k | 0 <= k < j + 1 ensures s[k] !in LineTerminators {
        if k > 0 {
          assert s[k] == s[1..][k - 1];
        }
      }
    }
    if LineEndAt(s, j + 1) {
      forall k | 0 <= k < j ensures s[1..][k] !in LineTerminators {
        assert s[1..][k] == s[k + 1];
      }
    }
  }

  /** `EndsLine` finds a line feed with no other line terminator before it. */
  lemma {:induction false} EndsLineMeaning(s: string)
    ensures EndsLine(s) <==> exists j :: LineEndAt(s, j)
    decreases |s|
  {
    if s != [] && s[0] != '\n' && s[0] !in LineTerminators {
      EndsLineMeaning(s[1..]);
      if EndsLine(s) {
        var j :| LineEndAt(s[1..], j);
        LineEndAtTail(s, j);
      }
      if j :| LineEndAt(s, j) {
        assert j > 0;
        LineEndAtTail(s, j - 1);
      }
    } else if s != [] && s[0] == '\n' {
      assert LineEndAt(s, 0);
    }
  }

  /** A match in `text[1..]` is a match in `text`, one index later. */
  lemma LabeledLineAtTail(tag: string, text: string, i: int, j: int)
    requires |text| > 0 && i >= 0
    ensures LabeledLineAt(tag, text[1..], i, j) <==> LabeledLineAt(tag, text, i + 1, j + 1)
  {
    OccursAtTail(text, tag + ": ", i);
    if LabeledLineAt(tag, text[1..], i, j) {
      forall k | i + 1 + |tag| + 2 <= k < j + 1 ensures text[k] !in LineTerminators {
        assert text[k] == text[1..][k - 1];
      }
    }
    if LabeledLineAt(tag, text, i + 1, j + 1) {
      forall k | i + |tag| + 2 <= k < j ensures text[1..][k] !in LineTerminators {
        assert text[1..][k] == text[k + 1];
      }
    }
  }

  /** A match at index 0 is `label: ` followed by a line end in the rest. */
  lemma LabeledLineAtHead(tag: string, text: string, j: int)
    requires OccursAt(text, tag + ": ", 0)
    ensures LabeledLineAt(tag, text, 0, j) <==> LineEndAt(text[|tag| + 2..], j - |tag| - 2)
  {
    var n := |tag| + 2;
    var s := text[n..];
    if LabeledLineAt(tag, text, 0, j) {
      forall k | 0 <= k < j - n ensures s[k] !in LineTerminators {
        assert s[k] == text[k + n];
      }
    }
    if LineEndAt(s, j - n) {
      assert text[j] == s[j - n];
      forall k | n <= k < j ensures text[k] !in LineTerminators {
        assert text[k] == s[k - n];
      }
    }
  }

  /** `EndAfterLabel` holds exactly when `text` has a labelled line ending in `EOL`. */
  lemma {:induction false} EndAfterLabelMeaning(tag: string, text: string)
    ensures EndAfterLabel(tag, text) <==> HasLabeledLine(tag, text)
    decreases |text|
  {
    var p := tag + ": ";
    if text != [] {
      EndAfterLabelMeaning(tag, text[1..]);
      if OccursAt(text, p, 0) {
        EndsLineMeaning(text[|p|..]);
        if EndsLine(text[|p|..]) {
          var j :| LineEndAt(text[|p|..], j);
          LabeledLineAtHead(tag, text, j + |p|);
        }
      }
      if EndAfterLabel(tag, text[1..]) {
        var i, j :| LabeledLineAt(tag, text[1..], i, j);
        LabeledLineAtTail(tag, text, i, j);
      }
      if HasLabeledLine(tag, text) {
        var i, j :| LabeledLineAt(tag, text, i, j);
        if i == 0 {
          LabeledLineAtHead(tag, text, j);
        } else {
          LabeledLineAtTail(tag, text, i - 1, j - 1);
        }
      }
    }
  }

  /**
   * Once a labelled line has arrived, more output does not undo it: the
   * test is stable under appending, whatever the chunking.
   */
  lemma EndAfterLabelAppend(tag: string, text: string, more: string)
    requires EndAfterLabel(tag, text)
    ensures EndAfterLabel(tag, text + more)
  {
    EndAfterLabelMeaning(tag, text);
    EndAfterLabelMeaning(tag, text + more);
    var i, j :| LabeledLineAt(tag, text, i, j);
    OccursAtExtend(text, more, tag + ": ", i);
    forall k | i + |tag| + 2 <= k <= j ensures (text + more)[k] == text[k] {
    }
    assert LabeledLineAt(tag, text + more, i, j);
  }

  /** The label and value one line contributes: `const [label, value] = split(line, ":")`. */
  function LabelAndValue(line: string): (string, Option<string>)
  {
    var fs := Split(line, ":");
    (fs[0], if |fs| > 1 then Some(fs[1]) else None)
  }

  /** A line without a colon is all label, and its value is absent. */
  lemma LabelWithoutColon(line: string)
    requires ':' !in line
    ensures LabelAndValue(line) == (TrimSpace(line), None)
  {
    IndexOfChar(line, ':', |line|);
    assert line[..|line|] == line;
    FieldsCount(line, ":");
  }

  /**
   * With its first colon at `i`, a line's label is the trimmed text before
   * it and its value the trimmed text from there up to the next colon `j`
   * (or the end of the line).
   */
  lemma LabelWithColon(line: string, i: int, j: int)
    requires 0 <= i < j <= |line|
    requires line[i] == ':' && ':' !in line[..i]
    requires ':' !in line[i + 1..j] && (j < |line| ==> line[j] == ':')
    ensures LabelAndValue(line) == (TrimSpace(line[..i]), Some(TrimSpace(line[i + 1..j])))
  {
    IndexOfChar(line, ':', i);
    var rest := line[i + 1..];
    assert rest[..j - i - 1] == line[i + 1..j];
    IndexOfChar(rest, ':', j - i - 1);
    FieldsCount(line, ":");
    var fs := Fields(line, ":");
    assert fs[0] == line[..i];
    if j < |line| {
      assert fs[1] == rest[..j - i - 1];
    } else {
      assert rest == rest[..j - i - 1];
      assert fs[1] == rest;
    }
  }

  /** The (label, value) pair of each line, in order. */
  function Entries(ls: seq<string>): (r: seq<(string, Option<string>)>)
    ensures |r| == |ls| && forall k :: 0 <= k < |ls| ==> r[k] == LabelAndValue(ls[k])
  {
    seq(|ls|, k requires 0 <= k < |ls| => LabelAndValue(ls[k]))
  }

  /** The left fold of `parseLabeled`'s `reduce`: each entry sets its label to its value, in order. */
  function Assign(es: seq<(string, Option<string>)>, parsed: map<string, Option<string>>): map<string, Option<string>>
    decreases |es|
  {
    if es == [] then parsed
    else Assign(es[1..], parsed[es[0].0 := es[0].1])
  }

  /** `parseLabeled(data)`: the labels and values of the lines of `data`. */
  function ParseLabeled(data: string): (r: map<string, Option<string>>)
    ensures |r| <= |Lines(data)|
  {
    AssignSize(Entries(Lines(data)), map[]);
    Assign(Entries(Lines(data)), map[])
  }

  /** Each assignment adds at most one key. */
  lemma {:induction false} AssignSize(es: seq<(string, Option<string>)>, parsed: map<string, Option<string>>)
    ensures |Assign(es, parsed)| <= |parsed| + |es|
    decreases |es|
  {
    if es != [] {
      var next := parsed[es[0].0 := es[0].1];
      assert next.Keys == parsed.Keys + {es[0].0};
      AssignSize(es[1..], next);
    }
  }

  /** The keys after the fold are the keys before it and every entry's label. */
  lemma {:induction false} AssignKeys(es: seq<(string, Option<string>)>, parsed: map<string, Option<string>>)
    ensures Assign(es, parsed).Keys == parsed.Keys + set k | 0 <= k < |es| :: es[k].0
    decreases |es|
  {
    if es != [] {
      var next := parsed[es[0].0 := es[0].1];
      AssignKeys(es[1..], next);
      var all := set k | 0 <= k < |es| :: es[k].0;
      var rest := set k | 0 <= k < |es[1..]| :: es[1..][k].0;
      assert all == {es[0].0} + rest by {
        forall x | x in all ensures x in {es[0].0} + rest {
          var k :| 0 <= k < |es| && es[k].0 == x;
          if k > 0 {
            assert es[1..][k - 1] == es[k];
          }
        }
        forall x | x in rest ensures x in all {
          var k :| 0 <= k < |es[1..]| && es[1..][k].0 == x;
          assert es[k + 1] == es[1..][k];
        }
      }
    }
  }

  /** A key no entry labels keeps the value it had before the fold. */
  lemma {:induction false} AssignUntouched(es: seq<(string, Option<string>)>, parsed: map<string, Option<string>>, key: string)
    requires key in parsed
    requires forall k :: 0 <= k < |es| ==> es[k].0 != key
    ensures key in Assign(es, parsed) && Assign(es, parsed)[key] == parsed[key]
    decreases |es|
  {
    if es != [] {
      assert es[0].0 != key;
      forall k | 0 <= k < |es[1..]| ensures es[1..][k].0 != key {
        assert es[1..][k] == es[k + 1];
      }
      AssignUntouched(es[1..], parsed[es[0].0 := es[0].1], key);
    }
  }

  /** An entry whose label no later entry repeats decides that label's value. */
  lemma {:induction false} AssignLastWins(es: seq<(string, Option<string>)>, parsed: map<string, Option<string>>, j: int)
    requires 0 <= j < |es|
    requires forall k :: j < k < |es| ==> es[k].0 != es[j].0
    ensures es[j].0 in Assign(es, parsed) && Assign(es, parsed)[es[j].0] == es[j].1
    decreases |es|
  {
    var next := parsed[es[0].0 := es[0].1];
    if j == 0 {
      forall k | 0 <= k < |es[1..]| ensures es[1..][k].0 != es[0].0 {
        assert es[1..][k] == es[k + 1];
      }
      AssignUntouched(es[1..], next, es[0].0);
    } else {
      forall k | j - 1 < k < |es[1..]| ensures es[1..][k].0 != es[1..][j - 1].0 {
        assert es[1..][k] == es[k + 1];
      }
      AssignLastWins(es[1..], next, j - 1);
    }
  }

  /** `parseLabeled` has a key for exactly the labels of the lines of `data`. */
  lemma ParseLabeledKeys(data: string)
    ensures ParseLabeled(data).Keys == set k | 0 <= k < |Lines(data)| :: LabelAndValue(Lines(data)[k]).0
  {
    AssignKeys(Entries(Lines(data)), map[]);
    EntriesLabels(Lines(data));
  }

  /** The labels of the entries are the labels of the lines. */
  lemma EntriesLabels(ls: seq<string>)
    ensures (set k | 0 <= k < |Entries(ls)| :: Entries(ls)[k].0) == set k | 0 <= k < |ls| :: LabelAndValue(ls[k]).0
  {
    var es := Entries(ls);
    var labels := set k | 0 <= k < |ls| :: LabelAndValue(ls[k]).0;
    var entryLabels := set k | 0 <= k < |es| :: es[k].0;
    forall x | x in labels ensures x in entryLabels {
      var k :| 0 <= k < |ls| && LabelAndValue(ls[k]).0 == x;
      assert es[k].0 == x;
    }
  }

  /**
   * The value `parseLabeled` keeps for a label is that of the last line
   * carrying it: a later line with the same label overwrites an earlier one.
   */
  lemma ParseLabeledLastWins(data: string, j: int)
    requires 0 <= j < |Lines(data)|
    requires forall k :: j < k < |Lines(data)| ==> LabelAndValue(Lines(data)[k]).0 != LabelAndValue(Lines(data)[j]).0
    ensures LabelAndValue(Lines(data)[j]).0 in ParseLabeled(data)
    ensures ParseLabeled(data)[LabelAndValue(Lines(data)[j]).0] == LabelAndValue(Lines(data)[j]).1
  {
    AssignLastWins(Entries(Lines(data)), map[], j);
  }
}
