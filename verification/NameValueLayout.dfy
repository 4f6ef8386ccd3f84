/** What a configuration file means to the one who writes it: lines with names and values, laid out with blanks as
    the writer likes, comments and blank lines. */
module NameValueLayout {
  import opened Bytes
  import opened NameValue
  import opened NameValueProperties

  predicate AllBlank(s: string) { forall i :: 0 <= i < |s| ==> s[i] == ' ' || s[i] == '\t' }

  predicate Spaces(s: string) { forall i :: 0 <= i < |s| ==> s[i] == ' ' }

  // ---------- trimming ----------

  lemma {:induction false} TrimLeftDrops(before: string, s: string)
    requires AllBlank(before)
    ensures TrimLeft(before + s) == TrimLeft(s)
  {
    if before == "" {
      assert before + s == s;
    } else {
      assert (before + s)[1..] == before[1..] + s;
      TrimLeftDrops(before[1..], s);
    }
  }

  lemma {:induction false} TrimRightDrops(s: string, after: string)
    requires AllBlank(after)
    ensures TrimRight(s + after) == TrimRight(s)
  {
    if after == "" {
      assert s + after == s;
    } else {
      var n := |s + after| - 1;
      assert (s + after)[n] == after[|after| - 1] && (s + after)[..n] == s + after[..|after| - 1];
      TrimRightDrops(s, after[..|after| - 1]);
    }
  }

  /** Trimming takes away the blanks around a text, whatever they are. */
  lemma TrimIs(before: string, s: string, after: string)
    requires AllBlank(before) && AllBlank(after) && Trimmed(s)
    ensures Trim(before + s + after) == s
  {
    assert before + s + after == before + (s + after);
    TrimLeftDrops(before, s + after);
    if s == "" {
      assert s + after == after && after + "" == after;
      TrimLeftDrops(after, "");
    } else {
      TrimRightDrops(s, after);
    }
  }

  lemma {:induction false} TrimLeftCuts(s: string) returns (before: string)
    ensures AllBlank(before) && s == before + TrimLeft(s)
  {
    if s != "" && Blank(s[0]) {
      before := TrimLeftCuts(s[1..]);
      assert s == [s[0]] + s[1..];
      before := [s[0]] + before;
    } else {
      before := "";
    }
  }

  lemma {:induction false} TrimRightCuts(s: string) returns (after: string)
    ensures AllBlank(after) && s == TrimRight(s) + after
  {
    if s != "" && Blank(s[|s| - 1]) {
      after := TrimRightCuts(s[..|s| - 1]);
      assert s == s[..|s| - 1] + [s[|s| - 1]];
      after := after + [s[|s| - 1]];
    } else {
      after := "";
    }
  }

  /** Every text is its trimmed form between two runs of blanks. */
  lemma TrimCuts(s: string) returns (before: string, after: string)
    ensures AllBlank(before) && AllBlank(after) && s == before + Trim(s) + after
    ensures Trim(s) != "" ==> Trim(s)[0] !in " \t" && Trim(s)[|Trim(s)| - 1] !in " \t"
  {
    hide TrimLeft, TrimRight;
    before := TrimLeftCuts(s);
    after := TrimRightCuts(TrimLeft(s));
    TrimTrims(s);
  }

  /** Exactly the spaces in front are skipped. */
  lemma {:induction false} SkipSpacesIs(p: string, l: string)
    requires Spaces(p) && (l != "" ==> l[0] != ' ')
    ensures SkipSpaces(p + l) == l
  {
    if p == "" {
      assert p + l == l;
    } else {
      assert (p + l)[1..] == p[1..] + l;
      SkipSpacesIs(p[1..], l);
    }
  }

  // ---------- lines ----------

  /** A line as it is laid out: blanks `p` before the name, `q` before and `r` after the "=", `t` at the end. */
  datatype Line =
    | Assignment(p: string, name: string, q: string, r: string, value: string, t: string)
    | Remark(p: string, text: string)
    | Vacant(p: string)

  ghost predicate Proper(l: Line) {
    match l
    case Assignment(p, name, q, r, value, t) =>
      AllBlank(p) && AllBlank(q) && AllBlank(r) && AllBlank(t) && GoodName(name) && GoodValue(value)
    case Remark(p, text) => Spaces(p) && GoodComment(text)
    case Vacant(p) => Spaces(p)
  }

  function Laid(l: Line): string {
    match l
    case Assignment(p, name, q, r, value, t) => p + name + q + "=" + r + value + t
    case Remark(p, text) => p + text
    case Vacant(p) => p
  }

  lemma {:induction false} SkipSpacesOfBlanks(p: string, s: string) returns (p': string)
    requires AllBlank(p) && s != "" && !Blank(s[0])
    ensures AllBlank(p') && SkipSpaces(p + s) == p' + s && (p' != "" ==> p'[0] == '\t')
  {
    if p == "" {
      p' := p;
      assert p + s == s;
    } else if p[0] == ' ' {
      assert (p + s)[1..] == p[1..] + s;
      p' := SkipSpacesOfBlanks(p[1..], s);
    } else {
      p' := p;
    }
  }

  lemma FirstSeparator(front: string, back: string)
    requires '=' !in front && front != ""
    ensures SplitPair(front + "=" + back) == Some((front, back))
  {
    var l := front + "=" + back;
    assert l[0] == front[0] && front[0] in front;
    assert l[..|front|] == front && l[|front| + 1..] == back;
    IndexOfIs(l, '=', |front|);
  }

  /** A name and a value are read as they are meant, whatever blanks lie around them. */
  lemma AssignmentParses(p: string, name: string, q: string, r: string, value: string, t: string)
    requires AllBlank(p) && AllBlank(q) && AllBlank(r) && AllBlank(t) && GoodName(name) && GoodValue(value)
    ensures ParseLine(p + name + q + "=" + r + value + t) == Pair(name, value)
  {
    var s := name + q + "=" + (r + value + t);
    assert p + name + q + "=" + r + value + t == p + s;
    assert s[0] == name[0];
    var p' := SkipSpacesOfBlanks(p, s);
    var front := p' + name + q;
    assert p' + s == front + "=" + (r + value + t);
    assert front[0] == if p' == "" then name[0] else p'[0];
    assert '=' !in front;
    FirstSeparator(front, r + value + t);
    TrimIs(p', name, q);
    TrimIs(r, value, t);
  }

  lemma LineParses(l: Line)
    requires Proper(l)
    ensures ParseLine(Laid(l)) == match l
      case Assignment(_, name, _, _, value, _) => Pair(name, value)
      case Remark(_, text) => Comment(text)
      case Vacant(_) => Nothing
  {
    match l
    case Assignment(p, name, q, r, value, t) => AssignmentParses(p, name, q, r, value, t);
    case Remark(p, text) => SkipSpacesIs(p, text);
    case Vacant(p) =>
      SkipSpacesIs(p, "");
      assert p + "" == p;
  }

  // ---------- files ----------

  function LaidAll(lines: seq<Line>): seq<string> { seq(|lines|, i requires 0 <= i < |lines| => Laid(lines[i])) }

  /** The variables after the assignments, made one after the other. */
  function Assigned(values: Values, lines: seq<Line>): Values
    decreases |lines|
  {
    if lines == [] then values
    else Assigned(if lines[0].Assignment? then values[lines[0].name := lines[0].value] else values, lines[1..])
  }

  function EntryOf(l: Line): Entry {
    match l
    case Assignment(_, name, _, _, _, _) => Entry(NameLine, name)
    case Remark(_, text) => Entry(CommentLine, text)
    case Vacant(_) => Entry(EmptyLine, "")
  }

  function EntriesOf(lines: seq<Line>): seq<Entry> {
    seq(|lines|, i requires 0 <= i < |lines| => EntryOf(lines[i]))
  }

  lemma {:induction false} OthersStay(values: Values, lines: seq<Line>, name: string)
    requires forall k :: 0 <= k < |lines| && lines[k].Assignment? ==> lines[k].name != name
    ensures name in Assigned(values, lines) <==> name in values
    ensures name in values ==> Assigned(values, lines)[name] == values[name]
    decreases |lines|
  {
    if lines != [] {
      OthersStay(if lines[0].Assignment? then values[lines[0].name := lines[0].value] else values, lines[1..], name);
    }
  }

  /** A variable has the value of the last assignment to it. */
  lemma {:induction false} LastAssignmentCounts(values: Values, lines: seq<Line>, k: nat)
    requires k < |lines| && lines[k].Assignment?
    requires forall j :: k < j < |lines| && lines[j].Assignment? ==> lines[j].name != lines[k].name
    ensures var after := Assigned(values, lines); lines[k].name in after && after[lines[k].name] == lines[k].value
    decreases |lines|
  {
    var next := if lines[0].Assignment? then values[lines[0].name := lines[0].value] else values;
    if k == 0 {
      OthersStay(next, lines[1..], lines[0].name);
    } else {
      LastAssignmentCounts(next, lines[1..], k - 1);
    }
  }

  lemma LineIsRead(image: Image, l: Line)
    requires Proper(l)
    ensures AddLine(image, Laid(l))
         == Some(Image(if l.Assignment? then image.values[l.name := l.value] else image.values,
                       image.entries + [EntryOf(l)]))
  {
    hide ParseLine, Laid;
    LineParses(l);
  }

  /** Reading such lines makes their assignments in order, and keeps every line of the file. */
  lemma {:induction false} LinesAreRead(image: Image, lines: seq<Line>)
    requires forall l :: l in lines ==> Proper(l)
    ensures AddLines(image, LaidAll(lines))
         == Some(Image(Assigned(image.values, lines), image.entries + EntriesOf(lines)))
    decreases |lines|
  {
    hide AddLine, Laid, EntryOf, Proper;
    if lines == [] {
      AddLinesNone(image);
      assert image.entries + EntriesOf(lines) == image.entries;
    } else {
      assert LaidAll(lines) == [Laid(lines[0])] + LaidAll(lines[1..]);
      assert EntriesOf(lines) == [EntryOf(lines[0])] + EntriesOf(lines[1..]);
      LineIsRead(image, lines[0]);
      var next := AddLine(image, Laid(lines[0])).value;
      LinesAreRead(next, lines[1..]);
      assert next.entries + EntriesOf(lines[1..]) == image.entries + EntriesOf(lines);
    }
  }

  /** The text of a file with these lines, each but the last ended by a newline. */
  function TextOf(lines: seq<string>): string
    requires lines != []
  {
    if |lines| == 1 then lines[0] else lines[0] + "\n" + TextOf(lines[1..])
  }

  lemma OneLine(line: string)
    requires '\n' !in line
    ensures SplitLines(line) == [line]
  {
    assert line[..|line|] == line;
    IndexOfIs(line, '\n', |line|);
  }

  lemma {:induction false} TextSplits(lines: seq<string>)
    requires lines != [] && forall l :: l in lines ==> '\n' !in l
    ensures SplitLines(TextOf(lines)) == lines
  {
    hide SplitLines;
    assert lines[0] in lines;
    if |lines| == 1 {
      OneLine(lines[0]);
    } else {
      assert forall l :: l in lines[1..] ==> l in lines;
      TextSplits(lines[1..]);
      SplitFirst(lines[0], TextOf(lines[1..]));
    }
  }

  lemma LaidIsOneLine(l: Line)
    requires Proper(l)
    ensures '\n' !in Laid(l)
  {
  }

  lemma FileSplits(lines: seq<Line>)
    requires lines != [] && forall l :: l in lines ==> Proper(l)
    ensures SplitLines(TextOf(LaidAll(lines))) == LaidAll(lines)
  {
    hide SplitLines, Laid, TextOf, Proper;
    forall s | s in LaidAll(lines)
      ensures '\n' !in s
    {
      var i :| 0 <= i < |lines| && LaidAll(lines)[i] == s;
      assert lines[i] in lines;
      LaidIsOneLine(lines[i]);
    }
    TextSplits(LaidAll(lines));
  }

  /** Loading a file of such lines that fit the line buffer makes exactly its assignments, in their order, and
      keeps its lines; a load of a run means just that. */
  lemma LoadOfLayout(lines: seq<Line>, values: Values)
    requires lines != [] && forall l :: l in lines ==> Proper(l)
    requires Fits(LaidAll(lines), 0)
    ensures ReadFile(TextOf(LaidAll(lines))) == Some(Image(Assigned(map[], lines), EntriesOf(lines)))
    ensures Meaning(values, Load(TextOf(LaidAll(lines)))) == Assigned(map[], lines)
  {
    hide SplitLines, Fits, Proper, AddLines, LastValues, TextOf;
    FileSplits(lines);
    LinesAreRead(EMPTY, lines);
    assert [] + EntriesOf(lines) == EntriesOf(lines);
    LoadedValues(EMPTY, LaidAll(lines));
  }

  /** The spaces in front of a number of lines, all together. */
  function SpacesBefore(lines: seq<string>, k: nat): nat
    requires k <= |lines|
  {
    if k == 0 then 0 else SpacesBefore(lines, k - 1) + |lines[k - 1]| - |SkipSpaces(lines[k - 1])|
  }

  lemma {:induction false} SpacesBeforeUnfold(lines: seq<string>, k: nat)
    requires 0 < k <= |lines|
    ensures SpacesBefore(lines, k) == |lines[0]| - |SkipSpaces(lines[0])| + SpacesBefore(lines[1..], k - 1)
  {
    if k > 1 {
      SpacesBeforeUnfold(lines, k - 1);
    }
  }

  /** Line k, with the spaces in front of all lines before it, has fewer than 2048 characters. */
  predicate FitsAt(lines: seq<string>, skipped: nat, k: nat)
    requires k < |lines|
  {
    skipped + SpacesBefore(lines, k) + |lines[k]| < 2048
  }

  lemma FitsAtLater(lines: seq<string>, skipped: nat, k: nat)
    requires 0 < k < |lines|
    ensures FitsAt(lines, skipped, k)
       <==> FitsAt(lines[1..], skipped + |lines[0]| - |SkipSpaces(lines[0])|, k - 1)
  {
    SpacesBeforeUnfold(lines, k);
  }

  lemma FitsUnfold(lines: seq<string>, skipped: nat)
    requires lines != []
    ensures Fits(lines, skipped)
       <==> FitsAt(lines, skipped, 0) && Fits(lines[1..], skipped + |lines[0]| - |SkipSpaces(lines[0])|)
  {
  }

  lemma {:induction false} FitsIff(lines: seq<string>, skipped: nat)
    ensures Fits(lines, skipped) <==> forall k :: 0 <= k < |lines| ==> FitsAt(lines, skipped, k)
    decreases |lines|
  {
    if lines != [] {
      var more := skipped + |lines[0]| - |SkipSpaces(lines[0])|;
      hide Fits, FitsAt, SkipSpaces;
      FitsUnfold(lines, skipped);
      FitsIff(lines[1..], more);
      forall k | 0 < k < |lines|
        ensures FitsAt(lines, skipped, k) <==> FitsAt(lines[1..], more, k - 1)
      {
        FitsAtLater(lines, skipped, k);
      }
      if forall k :: 0 <= k < |lines| ==> FitsAt(lines, skipped, k) {
        assert FitsAt(lines, skipped, 0);
        forall k | 0 <= k < |lines[1..]|
          ensures FitsAt(lines[1..], more, k)
        {
          assert FitsAt(lines, skipped, k + 1);
        }
      }
    }
  }

  /** Saving renews the date behind the generated comment and leaves every other entry in its place. */
  lemma {:induction false} RedatedAt(entries: seq<Entry>, date: Date, k: nat)
    requires k < |entries|
    ensures |Redated(entries, date)| == |entries|
    ensures Redated(entries, date)[k] ==
            if entries[k].kind == CommentLine && "# Generated on: " <= entries[k].text
            then Entry(CommentLine, "# Generated on: " + date) else entries[k]
  {
    if k == 0 {
      RedatedLength(entries, date);
    } else {
      RedatedAt(entries[1..], date, k - 1);
    }
  }

  lemma {:induction false} RedatedLength(entries: seq<Entry>, date: Date)
    ensures |Redated(entries, date)| == |entries|
  {
    if entries != [] {
      RedatedLength(entries[1..], date);
    }
  }
}
