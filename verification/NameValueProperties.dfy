/** Saving and loading a configuration, and runs of reads, sets and removals. */
module NameValueProperties {
  import opened Bytes
  import opened NameValue

  // ---------- well-formed configurations ----------

  predicate Trimmed(s: string) {
    s == "" || (!Blank(s[0]) && !Blank(s[|s| - 1]))
  }

  /** What every name has that was read from a file. */
  predicate CleanName(name: string) {
    name != "" && Trimmed(name) && '=' !in name && '\n' !in name
  }

  predicate GoodName(name: string) { CleanName(name) && name[0] != '#' }

  predicate GoodValue(value: string) { Trimmed(value) && '\n' !in value }

  predicate GoodComment(text: string) { text != "" && text[0] == '#' && '\n' !in text }

  ghost predicate GoodEntry(values: Values, e: Entry) {
    match e.kind
    case NameLine => e.text in values
    case CommentLine => GoodComment(e.text)
    case EmptyLine => e.text == ""
  }

  /** Names and values can be written and read, and the variables of the image are exactly those of
      the map. */
  ghost predicate WellFormed(image: Image) {
    && (forall n :: n in image.values ==> GoodName(n) && GoodValue(image.values[n]))
    && (forall e :: e in image.entries ==> GoodEntry(image.values, e))
    && (forall n :: n in image.values ==> Entry(NameLine, n) in image.entries)
  }

  // ---------- one line written and read ----------

  lemma PairParses(name: string, value: string)
    requires GoodName(name) && GoodValue(value)
    ensures ParseLine(name + "=" + value) == Pair(name, value)
  {
    var line := name + "=" + value;
    assert line[0] == name[0] && line[..|name|] == name && line[|name| + 1..] == value;
    assert name[0] in name;
    IndexOfIs(line, '=', |name|);
  }

  lemma SplitFirst(line: string, rest: string)
    requires '\n' !in line
    ensures SplitLines(line + "\n" + rest) == [line] + SplitLines(rest)
  {
    var text := line + "\n" + rest;
    assert text[..|line|] == line && text[|line| + 1..] == rest;
    IndexOfIs(text, '\n', |line|);
  }

  lemma SplitEmpty()
    ensures SplitLines("") == [""]
  {
  }

  lemma {:induction false} SplitJoin(lines: seq<string>)
    requires forall l :: l in lines ==> '\n' !in l
    ensures SplitLines(JoinLines(lines)) == lines + [""]
  {
    hide SplitLines;
    if lines == [] {
      SplitEmpty();
      assert [] + [""] == [""];
    } else {
      var first, rest := lines[0], lines[1..];
      assert forall l :: l in rest ==> l in lines;
      SplitJoin(rest);
      SplitFirst(first, JoinLines(rest));
      assert lines + [""] == [first] + (rest + [""]);
    }
  }

  // ---------- save and load ----------

  function Redated(entries: seq<Entry>, date: Date): seq<Entry> {
    if entries == [] then [] else [Redate(entries[0], date)] + Redated(entries[1..], date)
  }

  /** The values of the variables named in `entries`, read one after the other. */
  function Named(values: Values, entries: seq<Entry>): Values {
    map n | n in values && Entry(NameLine, n) in entries :: values[n]
  }

  lemma {:induction false} AddLinesAppend(image: Image, left: seq<string>, right: seq<string>)
    ensures AddLines(image, left + right)
         == match AddLines(image, left) case None => None case Some(next) => AddLines(next, right)
    decreases |left|
  {
    if left == [] {
      assert left + right == right;
    } else {
      assert (left + right)[0] == left[0] && (left + right)[1..] == left[1..] + right;
      match AddLine(image, left[0])
      case None =>
      case Some(next) => AddLinesAppend(next, left[1..], right);
    }
  }

  function Redate(e: Entry, date: Date): Entry {
    if e.kind == CommentLine && Generated(e.text) then Entry(CommentLine, COMMENT_GENERATE + date) else e
  }

  lemma AddLinesOne(image: Image, line: string)
    ensures AddLines(image, [line]) == AddLine(image, line)
  {
  }

  /** The image after the lines of one entry were read. */
  function AfterEntry(image: Image, values: Values, e: Entry, date: Date): Image
    requires e.kind == NameLine ==> e.text in values
  {
    Image(if e.kind == NameLine then image.values[e.text := values[e.text]] else image.values,
          image.entries + [Redate(e, date)])
  }

  /** The image after the lines of all entries were read. */
  function Rebuilt(image: Image, values: Values, entries: seq<Entry>, date: Date): Image {
    Image(image.values + Named(values, entries), image.entries + Redated(entries, date))
  }

  lemma EntryReadsBack(image: Image, values: Values, e: Entry, date: Date)
    requires GoodEntry(values, e)
    requires e.kind == NameLine ==> GoodName(e.text) && GoodValue(values[e.text])
    ensures AddLines(image, EntryLines(values, e, date)) == Some(AfterEntry(image, values, e, date))
  {
    hide AddLines;
    var lines := EntryLines(values, e, date);
    AddLinesOne(image, lines[0]);
    match e.kind
    case NameLine =>
      PairParses(e.text, values[e.text]);
      assert lines[0][0] == e.text[0];
    case CommentLine =>
      assert lines[0][0] == '#';
    case EmptyLine =>
  }

  lemma NamedUnfold(base: Values, values: Values, entries: seq<Entry>)
    requires entries != [] && GoodEntry(values, entries[0])
    ensures var e, rest := entries[0], entries[1..];
      base + Named(values, entries)
      == (if e.kind == NameLine then base[e.text := values[e.text]] else base) + Named(values, rest)
  {
    hide GoodComment;
    assert entries == [entries[0]] + entries[1..];
  }

  lemma RedatedUnfold(base: seq<Entry>, entries: seq<Entry>, date: Date)
    requires entries != []
    ensures base + [Redate(entries[0], date)] + Redated(entries[1..], date) == base + Redated(entries, date)
  {
  }

  lemma RebuiltUnfold(image: Image, values: Values, entries: seq<Entry>, date: Date)
    requires entries != [] && GoodEntry(values, entries[0])
    ensures Rebuilt(AfterEntry(image, values, entries[0], date), values, entries[1..], date)
         == Rebuilt(image, values, entries, date)
  {
    hide Named, Redate, Redated;
    NamedUnfold(image.values, values, entries);
    RedatedUnfold(image.entries, entries, date);
  }

  lemma RebuiltNothing(image: Image, values: Values, date: Date)
    ensures Rebuilt(image, values, [], date) == image
  {
    assert image.values + Named(values, []) == image.values && image.entries + [] == image.entries;
  }

  lemma RebuiltFromNothing(image: Image, date: Date)
    requires WellFormed(image)
    ensures Rebuilt(EMPTY, image.values, image.entries, date) == Image(image.values, Redated(image.entries, date))
  {
    assert map[] + Named(image.values, image.entries) == image.values;
    assert [] + Redated(image.entries, date) == Redated(image.entries, date);
  }

  lemma {:induction false} LinesReadBack(image: Image, values: Values, entries: seq<Entry>, date: Date)
    requires forall n :: n in values ==> GoodName(n) && GoodValue(values[n])
    requires forall e :: e in entries ==> GoodEntry(values, e)
    ensures AddLines(image, ImageLines(values, entries, date)) == Some(Rebuilt(image, values, entries, date))
    decreases |entries|
  {
    hide Rebuilt, GoodName, GoodValue, GoodComment, EntryLines;
    if entries == [] {
      RebuiltNothing(image, values, date);
    } else {
      hide AddLines, AfterEntry;
      var e, rest := entries[0], entries[1..];
      assert GoodEntry(values, e);
      AddLinesAppend(image, EntryLines(values, e, date), ImageLines(values, rest, date));
      EntryReadsBack(image, values, e, date);
      LinesReadBack(AfterEntry(image, values, e, date), values, rest, date);
      RebuiltUnfold(image, values, entries, date);
    }
  }

  lemma {:induction false} ImageLinesHaveNoNewline(values: Values, entries: seq<Entry>, date: Date)
    requires forall n :: n in values ==> GoodName(n) && GoodValue(values[n])
    requires forall e :: e in entries ==> GoodEntry(values, e)
    ensures forall l :: l in ImageLines(values, entries, date) ==> '\n' !in l
  {
    if entries != [] {
      assert GoodEntry(values, entries[0]);
      ImageLinesHaveNoNewline(values, entries[1..], date);
    }
  }

  lemma TextReadsBack(image: Image, date: Date)
    requires WellFormed(image)
    ensures ReadText(WriteText(image, date))
         == Some(Image(image.values, Redated(image.entries, date) + [Entry(EmptyLine, "")]))
  {
    hide ImageLines, Redated, GoodName, GoodValue, JoinLines, SplitLines;
    var lines := ImageLines(image.values, image.entries, date);
    ImageLinesHaveNoNewline(image.values, image.entries, date);
    SplitJoin(lines);
    AddLinesAppend(EMPTY, lines, [""]);
    LinesReadBack(EMPTY, image.values, image.entries, date);
    RebuiltFromNothing(image, date);
    AddLinesOne(Image(image.values, Redated(image.entries, date)), "");
  }

  // ---------- the line buffer ----------

  predicate EntryShort(values: Values, e: Entry, date: Date) {
    match e.kind
    case NameLine => e.text in values ==> |e.text| + 1 + |values[e.text]| < MAX_LINE_LENGTH
    case CommentLine => if Generated(e.text) then |COMMENT_GENERATE| + |date| < MAX_LINE_LENGTH
                        else |e.text| < MAX_LINE_LENGTH
    case EmptyLine => true
  }

  /** Every line that would be written is shorter than the reader's line buffer. */
  ghost predicate ShortLines(image: Image, date: Date) {
    forall e :: e in image.entries ==> EntryShort(image.values, e, date)
  }

  /** A line that keeps the pointer to the buffer where it is, and is one line. */
  predicate Plain(line: string) { '\n' !in line && (line != "" ==> line[0] != ' ') }

  ghost predicate PlainEntries(values: Values, entries: seq<Entry>, date: Date) {
    forall e, l :: e in entries && l in EntryLines(values, e, date) ==> Plain(l)
  }

  lemma {:induction false} FitsIffShort(lines: seq<string>)
    requires forall l :: l in lines ==> Plain(l)
    ensures Fits(lines, 0) <==> forall l :: l in lines ==> |l| < MAX_LINE_LENGTH
  {
    if lines != [] {
      assert Plain(lines[0]);
      assert lines == [lines[0]] + lines[1..];
      FitsIffShort(lines[1..]);
    }
  }

  lemma {:induction false} ImageLinesAre(values: Values, entries: seq<Entry>, date: Date)
    ensures forall l :: l in ImageLines(values, entries, date)
              <==> exists e :: e in entries && l in EntryLines(values, e, date)
  {
    if entries != [] {
      ImageLinesAre(values, entries[1..], date);
      assert entries == [entries[0]] + entries[1..];
    }
  }

  lemma ShortEntry(values: Values, e: Entry, date: Date)
    ensures EntryShort(values, e, date) <==> forall l :: l in EntryLines(values, e, date) ==> |l| < MAX_LINE_LENGTH
  {
    if EntryLines(values, e, date) != [] {
      assert EntryLines(values, e, date)[0] in EntryLines(values, e, date);
    }
  }

  /** A saved file meets the reader's demands exactly when all its lines are short. */
  lemma SavedFileFitsIff(image: Image, date: Date)
    requires PlainEntries(image.values, image.entries, date)
    ensures Fits(SplitLines(WriteText(image, date)), 0) <==> ShortLines(image, date)
  {
    hide EntryLines, EntryShort, Fits, SplitLines, JoinLines, ImageLines, Plain;
    var lines := ImageLines(image.values, image.entries, date);
    ImageLinesAre(image.values, image.entries, date);
    assert forall l :: l in lines ==> Plain(l);
    assert Plain("") && forall l :: l in lines ==> '\n' !in l by {
      PlainMeans(lines);
    }
    SplitJoin(lines);
    FitsIffShort(lines + [""]);
    forall e | e in image.entries
      ensures EntryShort(image.values, e, date)
         <==> forall l :: l in EntryLines(image.values, e, date) ==> |l| < MAX_LINE_LENGTH
    {
      ShortEntry(image.values, e, date);
    }
  }

  lemma PlainMeans(lines: seq<string>)
    requires forall l :: l in lines ==> Plain(l)
    ensures Plain("") && forall l :: l in lines ==> '\n' !in l
  {
  }

  lemma WellFormedIsPlain(image: Image, date: Date)
    requires WellFormed(image)
    ensures PlainEntries(image.values, image.entries, date)
  {
    forall e, l | e in image.entries && l in EntryLines(image.values, e, date)
      ensures Plain(l)
    {
      assert GoodEntry(image.values, e);
      if e.kind == NameLine {
        assert l[0] == e.text[0] && GoodName(e.text);
      }
    }
  }

  /** Loading what was saved gives back the same variables, and the same file image except for the new
      date and one more empty line, which the reader adds at the end of the file: exactly when every line
      is short; otherwise nothing can be loaded. */
  lemma SaveThenLoad(image: Image, date: Date)
    requires WellFormed(image)
    ensures ReadFile(WriteText(image, date))
         == if ShortLines(image, date)
            then Some(Image(image.values, Redated(image.entries, date) + [Entry(EmptyLine, "")]))
            else None
  {
    hide ReadText, WriteText, ShortLines, Fits, SplitLines;
    TextReadsBack(image, date);
    WellFormedIsPlain(image, date);
    SavedFileFitsIff(image, date);
  }

  // ---------- any file ----------

  lemma {:induction false} TrimLeftTrims(s: string)
    ensures TrimLeft(s) != "" ==> !Blank(TrimLeft(s)[0])
    ensures forall c :: c in TrimLeft(s) ==> c in s
  {
    if s != "" && Blank(s[0]) {
      TrimLeftTrims(s[1..]);
    }
  }

  lemma {:induction false} TrimRightTrims(s: string)
    ensures var t := TrimRight(s);
      t != "" ==> !Blank(t[|t| - 1]) && t[0] == s[0]
    ensures forall c :: c in TrimRight(s) ==> c in s
  {
    if s != "" && Blank(s[|s| - 1]) {
      TrimRightTrims(s[..|s| - 1]);
    }
  }

  lemma TrimTrims(s: string)
    ensures Trimmed(Trim(s)) && forall c :: c in Trim(s) ==> c in s
  {
    TrimLeftTrims(s);
    TrimRightTrims(TrimLeft(s));
  }

  lemma {:induction false} SkipSpacesKeeps(line: string)
    ensures forall c :: c in SkipSpaces(line) ==> c in line
  {
    if line != "" && line[0] == ' ' {
      SkipSpacesKeeps(line[1..]);
    }
  }

  lemma {:induction false} PairParts(line: string)
    ensures match SplitPair(line)
      case None => true
      case Some((name, value)) =>
        '=' !in name && (forall c :: c in name ==> c in line) && forall c :: c in value ==> c in line
  {
    if line != "" && line[0] == '=' {
      PairParts(line[1..]);
    }
  }

  lemma ParsedIsClean(line: string)
    requires '\n' !in line
    ensures match ParseLine(line)
      case Comment(text) => GoodComment(text)
      case Pair(name, value) => (name == "" || CleanName(name)) && GoodValue(value)
      case _ => true
  {
    hide Trim, Trimmed, SkipSpaces, SplitPair;
    var l := SkipSpaces(line);
    SkipSpacesKeeps(line);
    PairParts(l);
    match SplitPair(l)
    case None =>
    case Some((name, value)) =>
      TrimTrims(name);
      TrimTrims(value);
  }

  /** What any file that can be read leaves in memory: well-formed but for names that start like a
      comment. */
  ghost predicate Loaded(image: Image) {
    && (forall n :: n in image.values ==> CleanName(n) && GoodValue(image.values[n]))
    && (forall e :: e in image.entries ==> GoodEntry(image.values, e))
    && (forall n :: n in image.values ==> Entry(NameLine, n) in image.entries)
  }

  lemma {:induction false} LinesLoad(image: Image, lines: seq<string>)
    requires Loaded(image) && forall l :: l in lines ==> '\n' !in l
    ensures match AddLines(image, lines)
      case Some(loaded) => Loaded(loaded)
      case None => true
    decreases |lines|
  {
    if lines != [] {
      assert forall l :: l in lines[1..] ==> l in lines;
      LineLoads(image, lines[0]);
      match AddLine(image, lines[0])
      case None =>
      case Some(next) => LinesLoad(next, lines[1..]);
    }
  }

  lemma LineLoads(image: Image, line: string)
    requires Loaded(image) && '\n' !in line
    ensures match AddLine(image, line)
      case Some(next) => Loaded(next)
      case None => true
  {
    hide ParseLine, CleanName, GoodValue, GoodComment;
    ParsedIsClean(line);
    match ParseLine(line)
    case Pair(name, value) =>
      if name != "" {
        var next := AddLine(image, line).value;
        forall e | e in next.entries
          ensures GoodEntry(next.values, e)
        {
          assert e in image.entries ==> GoodEntry(image.values, e);
        }
      }
    case _ =>
  }

  lemma {:induction false} PiecesHaveNoNewline(text: string)
    ensures forall l :: l in SplitLines(text) ==> '\n' !in l
    decreases |text|
  {
    var i := IndexOf(text, '\n');
    FirstLine(text);
    var lines := SplitLines(text);
    assert lines == [lines[0]] + lines[1..];
    if i < |text| {
      PiecesHaveNoNewline(text[i + 1..]);
    }
  }

  lemma FileLoads(text: string)
    ensures match ReadText(text)
      case Some(image) => Loaded(image)
      case None => true
  {
    PiecesHaveNoNewline(text);
    LinesLoad(EMPTY, SplitLines(text));
  }

  /** A line whose name starts like a comment although the line does not: the "#" comes after separators or
      blanks, as in "=#a=1". */
  ghost predicate HidesHash(line: string) {
    var l := SkipSpaces(line);
    exists i, k :: 0 <= i <= k < |l| && 0 < k && HashAfter(l, i, k)
  }

  predicate HashAfter(l: string, i: nat, k: nat)
    requires i <= k < |l|
  {
    (forall j :: 0 <= j < i ==> l[j] == '=') && (forall j :: i <= j < k ==> Blank(l[j])) && l[k] == '#'
  }

  /** A line that neither makes the reader throw nor names a variable that starts like a comment. */
  ghost predicate GoodLine(line: string) { !Refused(line) && !HidesHash(line) }

  /** What the parser makes of such a line. */
  predicate ParsesWell(line: string) {
    match ParseLine(line)
    case Bad => false
    case Pair(name, _) => name == "" || name[0] != '#'
    case _ => true
  }

  lemma {:induction false} TrimHead(s: string)
    ensures (Trim(s) != "" && Trim(s)[0] == '#') <==> exists k :: 0 <= k < |s| && HashAfter(s, 0, k)
  {
    TrimLeftHead(s);
    TrimRightTrims(TrimLeft(s));
    TrimRightEmpty(TrimLeft(s));
  }

  lemma {:induction false} TrimRightEmpty(s: string)
    requires s != "" ==> !Blank(s[0])
    ensures TrimRight(s) == "" <==> s == ""
  {
    if s != "" && Blank(s[|s| - 1]) {
      TrimRightEmpty(s[..|s| - 1]);
    }
  }

  lemma {:induction false} TrimLeftHead(s: string)
    ensures (TrimLeft(s) != "" && TrimLeft(s)[0] == '#') <==> exists k :: 0 <= k < |s| && HashAfter(s, 0, k)
    ensures TrimLeft(s) != "" ==> !Blank(TrimLeft(s)[0])
  {
    if s != "" && Blank(s[0]) {
      TrimLeftHead(s[1..]);
      if k :| 0 <= k < |s| && HashAfter(s, 0, k) {
        assert HashAfter(s[1..], 0, k - 1);
      }
      if k :| 0 <= k < |s[1..]| && HashAfter(s[1..], 0, k) {
        assert HashAfter(s, 0, k + 1);
      }
    } else if s != "" && s[0] == '#' {
      assert HashAfter(s, 0, 0);
    }
  }

  /** The name of a pair lies between the leading separators and the next one. */
  lemma {:induction false} NameIsBetween(l: string) returns (i: nat)
    ensures i <= |l| && forall j :: 0 <= j < i ==> l[j] == '='
    ensures i < |l| ==> l[i] != '='
    ensures match SplitPair(l)
      case None => i == |l|
      case Some((name, value)) =>
        var e := i + IndexOf(l[i..], '=');
        i < |l| && name == l[i..e] && value == if e < |l| then l[e + 1..] else ""
  {
    if l == "" || l[0] != '=' {
      i := 0;
      assert l[0..] == l;
    } else {
      i := NameIsBetween(l[1..]);
      i := i + 1;
      assert l[i..] == l[1..][i - 1..];
      forall j | 0 <= j < i
        ensures l[j] == '='
      {
        assert j > 0 ==> l[j] == l[1..][j - 1];
      }
    }
  }

  /** The name starts like a comment exactly when the line shows it. */
  lemma NameShowsHash(l: string)
    requires SplitPair(l).Some?
    ensures (Trim(SplitPair(l).value.0) != "" && Trim(SplitPair(l).value.0)[0] == '#')
       <==> exists i, k :: 0 <= i <= k < |l| && HashAfter(l, i, k)
  {
    hide Trim, SplitPair;
    var i := NameIsBetween(l);
    var name := SplitPair(l).value.0;
    TrimHead(name);
    if k :| 0 <= k < |name| && HashAfter(name, 0, k) {
      HashInName(l, i, name, k);
    }
    if i', k :| 0 <= i' <= k < |l| && HashAfter(l, i', k) {
      HashInLine(l, i, i', k, name);
    }
  }

  lemma HashInName(l: string, i: nat, name: string, k: nat)
    requires i + |name| <= |l| && name == l[i..i + |name|] && k < |name| && HashAfter(name, 0, k)
    requires forall j :: 0 <= j < i ==> l[j] == '='
    ensures HashAfter(l, i, i + k)
  {
    assert forall j :: i <= j <= i + k ==> l[j] == name[j - i];
  }

  lemma HashInLine(l: string, i: nat, i': nat, k: nat, name: string)
    requires i < |l| && l[i] != '=' && (forall j :: 0 <= j < i ==> l[j] == '=')
    requires name == l[i..i + IndexOf(l[i..], '=')]
    requires i' <= k < |l| && HashAfter(l, i', k)
    ensures i <= k && k - i < |name| && HashAfter(name, 0, k - i)
  {
    assert l[i'] != '=';
    assert i' == i;
    var e := i + IndexOf(l[i..], '=');
    if e < |l| {
      assert l[i..][e - i] == '=' == l[e];
    }
    assert forall j :: 0 <= j < |name| ==> name[j] == l[i + j];
  }

  lemma GoodLineIff(line: string)
    ensures GoodLine(line) <==> ParsesWell(line)
  {
    hide Trim, SplitPair;
    var l := SkipSpaces(line);
    SplitPairFails(l);
    SkippedNoSpace(line);
    if l != "" && l[0] != '#' && SplitPair(l).Some? {
      NameShowsHash(l);
    } else if l != "" && l[0] != '#' {
      forall i, k | 0 <= i <= k < |l| && 0 < k
        ensures !HashAfter(l, i, k)
      {
      }
    } else if l != "" {
      forall i, k | 0 <= i <= k < |l| && 0 < k
        ensures !HashAfter(l, i, k)
      {
        assert i > 0 ==> l[0] == '#';
      }
    }
  }

  lemma SkippedNoSpace(line: string)
    ensures SkipSpaces(line) != "" ==> SkipSpaces(line)[0] != ' '
  {
  }

  ghost predicate NoHash(values: Values) { forall n :: n in values && n != "" ==> n[0] != '#' }

  lemma {:induction false} GoodLinesOnly(image: Image, lines: seq<string>)
    ensures (match AddLines(image, lines) case Some(loaded) => NoHash(loaded.values) case None => false)
       <==> NoHash(image.values) && forall l :: l in lines ==> GoodLine(l)
    decreases |lines|
  {
    if lines != [] {
      hide ParseLine, GoodLine;
      GoodLineIff(lines[0]);
      assert lines == [lines[0]] + lines[1..];
      assert (forall l :: l in lines ==> GoodLine(l)) <==> GoodLine(lines[0]) && forall l :: l in lines[1..] ==> GoodLine(l);
      match ParseLine(lines[0])
      case Bad =>
      case Pair(name, value) =>
        GoodLinesOnly(AddLine(image, lines[0]).value, lines[1..]);
        if name != "" {
          assert NoHash(image.values[name := value]) <==> NoHash(image.values) && name[0] != '#';
        }
      case _ => GoodLinesOnly(AddLine(image, lines[0]).value, lines[1..]);
    }
  }

  lemma LoadedIsWellFormedIff(image: Image)
    requires Loaded(image)
    ensures WellFormed(image) <==> NoHash(image.values)
  {
    hide Trimmed, GoodValue, GoodEntry;
    forall n | n in image.values
      ensures GoodName(n) <==> n[0] != '#'
    {
    }
  }

  /** Reading a file succeeds with a well-formed configuration exactly when all its lines fit the line buffer
      and are good. */
  lemma LoadIsWellFormedIff(text: string)
    ensures (match ReadFile(text) case Some(image) => WellFormed(image) case None => false)
       <==> Fits(SplitLines(text), 0) && forall l :: l in SplitLines(text) ==> GoodLine(l)
  {
    hide GoodLine, WellFormed, Loaded, SplitLines, AddLines, Fits;
    FileLoads(text);
    GoodLinesOnly(EMPTY, SplitLines(text));
    if ReadText(text) != None {
      LoadedIsWellFormedIff(ReadText(text).value);
    }
  }

  /** A line without "=" is not refused: unless it is a comment or blank, it is a variable whose value
      is empty. */
  lemma LineWithoutSeparatorIsStored(image: Image, line: string)
    requires SkipSpaces(line) != "" && SkipSpaces(line)[0] != '#' && '=' !in SkipSpaces(line)
    ensures AddLine(image, line) == Some(
      if Trim(SkipSpaces(line)) == "" then image
      else Image(image.values[Trim(SkipSpaces(line)) := ""],
                 image.entries + [Entry(NameLine, Trim(SkipSpaces(line)))]))
  {
    var l := SkipSpaces(line);
    IndexOfIs(l, '=', |l|);
    assert l[..|l|] == l;
  }

  // ---------- runs ----------

  datatype Op = Set(name: string, value: string) | Remove(name: string) | SaveAndLoad(date: Date) | Load(text: string)

  /** What has to hold for an operation to do what it means. */
  ghost predicate GoodOp(image: Image, op: Op) {
    match op
    case Set(name, value) => GoodName(name) && GoodValue(value)
    case Remove(_) => true
    case SaveAndLoad(date) => ShortLines(image, date)
    case Load(text) => Fits(SplitLines(text), 0) && forall l :: l in SplitLines(text) ==> GoodLine(l)
  }

  /** What the methods of NameValue do to the file image. */
  ghost function Do(image: Image, op: Op): Option<Image> {
    match op
    case Set(name, value) => Some(AfterSet(image, name, value))
    case Remove(name) => Some(AfterRemove(image, name))
    case SaveAndLoad(date) => ReadFile(WriteText(image, date))
    case Load(text) => ReadFile(text)
  }

  /** What they mean for a plain map. */
  function Meaning(values: Values, op: Op): Values {
    match op
    case Set(name, value) => values[name := value]
    case Remove(name) => values - {name}
    case SaveAndLoad(_) => values
    case Load(text) => LastValues(map[], SplitLines(text))
  }

  /** Every name with the value of the last line that has it. */
  function LastValues(values: Values, lines: seq<string>): Values
    decreases |lines|
  {
    if lines == [] then values else
    match ParseLine(lines[0])
    case Pair(name, value) => LastValues(if name == "" then values else values[name := value], lines[1..])
    case _ => LastValues(values, lines[1..])
  }

  lemma {:induction false} LoadedValues(image: Image, lines: seq<string>)
    ensures match AddLines(image, lines)
      case Some(loaded) => loaded.values == LastValues(image.values, lines)
      case None => true
    decreases |lines|
  {
    if lines != [] {
      hide ParseLine;
      match AddLine(image, lines[0])
      case None =>
      case Some(next) => LoadedValues(next, lines[1..]);
    }
  }

  lemma {:induction false} RedatedMembers(values: Values, entries: seq<Entry>, date: Date)
    requires forall e :: e in entries ==> GoodEntry(values, e)
    ensures forall e :: e in Redated(entries, date) ==> GoodEntry(values, e)
    ensures forall n :: Entry(NameLine, n) in entries ==> Entry(NameLine, n) in Redated(entries, date)
  {
    if entries != [] {
      RedatedMembers(values, entries[1..], date);
      assert GoodEntry(values, entries[0]);
      assert (COMMENT_GENERATE + date)[0] == '#';
    }
  }

  lemma SetKeepsWellFormed(image: Image, name: string, value: string)
    requires WellFormed(image) && GoodName(name) && GoodValue(value)
    ensures WellFormed(AfterSet(image, name, value))
  {
    hide Trimmed, GoodValue;
    var next := AfterSet(image, name, value);
    if e :| e in image.entries && e.text == name {
      assert GoodEntry(image.values, e) && e == Entry(e.kind, name);
    }
    forall e | e in next.entries
      ensures GoodEntry(next.values, e)
    {
      assert e in image.entries ==> GoodEntry(image.values, e);
    }
  }

  lemma RemoveKeepsWellFormed(image: Image, name: string)
    requires WellFormed(image)
    ensures WellFormed(AfterRemove(image, name))
  {
    hide GoodName, GoodValue, GoodComment;
    var next := AfterRemove(image, name);
    forall e | e in next.entries
      ensures GoodEntry(next.values, e)
    {
      assert GoodEntry(image.values, e) && e == Entry(e.kind, e.text);
    }
  }

  lemma SaveAndLoadKeepsWellFormed(image: Image, date: Date)
    requires WellFormed(image) && ShortLines(image, date)
    ensures match ReadFile(WriteText(image, date))
      case Some(loaded) => WellFormed(loaded) && loaded.values == image.values
      case None => false
  {
    hide GoodName, GoodValue, ReadFile, WriteText, Redated, ShortLines;
    SaveThenLoad(image, date);
    RedatedMembers(image.values, image.entries, date);
  }

  /** An operation leaves a well-formed configuration exactly when it is good for the one it finds, and then
      acts on the variables as on a plain map. */
  lemma StepIsMap(image: Image, op: Op)
    requires WellFormed(image)
    ensures (match Do(image, op) case Some(next) => WellFormed(next) case None => false) <==> GoodOp(image, op)
    ensures GoodOp(image, op) ==> Do(image, op).value.values == Meaning(image.values, op)
  {
    hide ReadFile, WriteText, GoodLine, ShortLines, Fits;
    match op
    case Set(name, value) =>
      if GoodName(name) && GoodValue(value) {
        SetKeepsWellFormed(image, name, value);
      } else {
        assert name in AfterSet(image, name, value).values;
      }
    case Remove(name) => RemoveKeepsWellFormed(image, name);
    case SaveAndLoad(date) =>
      SaveThenLoad(image, date);
      if ShortLines(image, date) {
        SaveAndLoadKeepsWellFormed(image, date);
      }
    case Load(text) =>
      LoadIsWellFormedIff(text);
      FileValues(text);
  }

  lemma FileValues(text: string)
    ensures match ReadFile(text)
      case Some(image) => image.values == LastValues(map[], SplitLines(text))
      case None => true
  {
    hide Fits;
    LoadedValues(EMPTY, SplitLines(text));
  }

  ghost function DoAll(image: Image, ops: seq<Op>): Option<Image>
    decreases |ops|
  {
    if ops == [] then Some(image) else
    match Do(image, ops[0]) case None => None case Some(next) => DoAll(next, ops[1..])
  }

  /** Every operation of the run is good when its turn comes. */
  ghost predicate GoodRun(image: Image, ops: seq<Op>)
    decreases |ops|
  {
    ops != [] ==>
      && GoodOp(image, ops[0])
      && match Do(image, ops[0]) case None => false case Some(next) => GoodRun(next, ops[1..])
  }

  function MeaningAll(values: Values, ops: seq<Op>): Values
    decreases |ops|
  {
    if ops == [] then values else MeaningAll(Meaning(values, ops[0]), ops[1..])
  }

  /** Every run of loads, sets, removals and save-and-load cycles whose operations are good acts on the
      variables as on a plain map: no variable is lost, none appears, and every file can be loaded. */
  lemma {:induction false} RunsActOnMap(image: Image, ops: seq<Op>)
    requires WellFormed(image) && GoodRun(image, ops)
    ensures DoAll(image, ops).Some? && WellFormed(DoAll(image, ops).value)
    ensures DoAll(image, ops).value.values == MeaningAll(image.values, ops)
    decreases |ops|
  {
    if ops != [] {
      hide WellFormed, GoodOp, Do, Meaning;
      StepIsMap(image, ops[0]);
      RunsActOnMap(Do(image, ops[0]).value, ops[1..]);
    }
  }

  // ---------- runs that are good from the outset ----------

  /** Operations that can be checked before the run: nothing that would make a long line. */
  ghost predicate ShortOp(op: Op) {
    match op
    case Set(name, value) => GoodName(name) && GoodValue(value) && |name| + 1 + |value| < MAX_LINE_LENGTH
    case Remove(_) => true
    case SaveAndLoad(date) => |COMMENT_GENERATE| + |date| < MAX_LINE_LENGTH
    case Load(text) =>
      && Fits(SplitLines(text), 0)
      && forall l :: l in SplitLines(text) ==> GoodLine(l) && |l| + 1 < MAX_LINE_LENGTH
  }

  /** Whatever the date, the lines are short. */
  ghost predicate Short(image: Image) {
    && (forall n :: n in image.values ==> |n| + 1 + |image.values[n]| < MAX_LINE_LENGTH)
    && (forall e :: e in image.entries && e.kind == CommentLine ==> |e.text| < MAX_LINE_LENGTH)
  }

  lemma {:induction false} TrimLength(s: string)
    ensures |Trim(s)| <= |s|
  {
    TrimLeftLength(s);
    TrimRightLength(TrimLeft(s));
  }

  lemma {:induction false} TrimLeftLength(s: string)
    ensures |TrimLeft(s)| <= |s|
  {
    if s != "" && Blank(s[0]) {
      TrimLeftLength(s[1..]);
    }
  }

  lemma {:induction false} TrimRightLength(s: string)
    ensures |TrimRight(s)| <= |s|
  {
    if s != "" && Blank(s[|s| - 1]) {
      TrimRightLength(s[..|s| - 1]);
    }
  }

  lemma {:induction false} PairLength(line: string)
    ensures match SplitPair(line) case None => true case Some((name, value)) => |name| + |value| <= |line|
  {
    if line != "" && line[0] == '=' {
      PairLength(line[1..]);
    }
  }

  lemma ParsedLength(line: string)
    ensures match ParseLine(line)
      case Comment(text) => |text| <= |line|
      case Pair(name, value) => |name| + |value| <= |line|
      case _ => true
  {
    hide Trim, SplitPair;
    var l := SkipSpaces(line);
    PairLength(l);
    match SplitPair(l)
    case None =>
    case Some((name, value)) =>
      TrimLength(name);
      TrimLength(value);
  }

  lemma {:induction false} LinesAreShort(image: Image, lines: seq<string>)
    requires Short(image) && forall l :: l in lines ==> |l| + 1 < MAX_LINE_LENGTH
    ensures match AddLines(image, lines) case Some(loaded) => Short(loaded) case None => true
    decreases |lines|
  {
    if lines != [] {
      hide ParseLine;
      assert forall l :: l in lines[1..] ==> l in lines;
      ParsedLength(lines[0]);
      match AddLine(image, lines[0])
      case None =>
      case Some(next) => LinesAreShort(next, lines[1..]);
    }
  }

  lemma {:induction false} RedatedAreShort(entries: seq<Entry>, date: Date)
    requires |COMMENT_GENERATE| + |date| < MAX_LINE_LENGTH
    requires forall e :: e in entries && e.kind == CommentLine ==> |e.text| < MAX_LINE_LENGTH
    ensures forall e :: e in Redated(entries, date) && e.kind == CommentLine ==> |e.text| < MAX_LINE_LENGTH
  {
    if entries != [] {
      assert forall e :: e in entries[1..] ==> e in entries;
      assert entries[0] in entries;
      RedatedAreShort(entries[1..], date);
    }
  }

  lemma FileIsShort(text: string)
    requires forall l :: l in SplitLines(text) ==> |l| + 1 < MAX_LINE_LENGTH
    ensures match ReadFile(text) case Some(image) => Short(image) case None => true
  {
    hide Fits;
    LinesAreShort(EMPTY, SplitLines(text));
  }

  lemma ShortStep(image: Image, op: Op)
    requires WellFormed(image) && Short(image) && ShortOp(op)
    ensures GoodOp(image, op) && Do(image, op).Some? && Short(Do(image, op).value)
  {
    hide GoodLine, Fits, ReadFile, WriteText, GoodName, GoodValue, GoodComment;
    match op
    case Set(_, _) =>
    case Remove(_) =>
    case SaveAndLoad(date) =>
      ShortForAnyDate(image, date);
      SaveThenLoad(image, date);
      RedatedAreShort(image.entries, date);
    case Load(text) =>
      LoadIsWellFormedIff(text);
      FileIsShort(text);
  }

  lemma ShortForAnyDate(image: Image, date: Date)
    requires Short(image) && |COMMENT_GENERATE| + |date| < MAX_LINE_LENGTH
    ensures ShortLines(image, date)
  {
  }

  /** Every run of short operations from short lines is good. */
  lemma {:induction false} ShortRunsAreGood(image: Image, ops: seq<Op>)
    requires WellFormed(image) && Short(image) && forall op :: op in ops ==> ShortOp(op)
    ensures GoodRun(image, ops)
    decreases |ops|
  {
    if ops != [] {
      assert ops[0] in ops && forall op :: op in ops[1..] ==> op in ops;
      hide WellFormed, Short, ShortOp, GoodOp, Do;
      ShortStep(image, ops[0]);
      StepIsMap(image, ops[0]);
      ShortRunsAreGood(Do(image, ops[0]).value, ops[1..]);
    }
  }

  lemma {:induction false} UnnamedIsNotWritten(
    values: Values, name: string, value: string, entries: seq<Entry>, date: Date)
    requires Entry(NameLine, name) !in entries
    ensures ImageLines(values[name := value], entries, date) == ImageLines(values, entries, date)
  {
    if entries != [] {
      assert entries[0] == Entry(entries[0].kind, entries[0].text);
      UnnamedIsNotWritten(values, name, value, entries[1..], date);
    }
  }

  lemma {:induction false} ImageLinesAppend(values: Values, left: seq<Entry>, right: seq<Entry>, date: Date)
    ensures ImageLines(values, left + right, date) == ImageLines(values, left, date) + ImageLines(values, right, date)
  {
    if left == [] {
      assert left + right == right;
    } else {
      assert (left + right)[0] == left[0] && (left + right)[1..] == left[1..] + right;
      ImageLinesAppend(values, left[1..], right, date);
    }
  }

  /** The lines after a set of a name that starts like a comment: those of before, and possibly one
      more, which the reader takes for a comment. */
  lemma CommentNameLines(image: Image, name: string, value: string, date: Date)
    requires WellFormed(image) && name != "" && name[0] == '#'
    ensures var image' := AfterSet(image, name, value);
      var lines := ImageLines(image.values, image.entries, date);
      ImageLines(image'.values, image'.entries, date) == lines
      || ImageLines(image'.values, image'.entries, date) == lines + [name + "=" + value]
  {
    assert Entry(NameLine, name) in image.entries ==> GoodEntry(image.values, Entry(NameLine, name));
    var values' := image.values[name := value];
    UnnamedIsNotWritten(image.values, name, value, image.entries, date);
    var e := Entry(NameLine, name);
    ImageLinesAppend(values', image.entries, [e], date);
    assert [e][1..] == [];
    assert ImageLines(values', [e], date) == [name + "=" + value];
  }

  lemma CommentTextReads(image: Image, name: string, value: string, date: Date)
    requires WellFormed(image) && name != "" && name[0] == '#' && '\n' !in name && '\n' !in value
    ensures match ReadText(WriteText(AfterSet(image, name, value), date))
      case Some(loaded) => loaded.values == image.values
      case None => false
  {
    hide ImageLines, JoinLines, SplitLines, AddLines, Redated;
    var image' := AfterSet(image, name, value);
    var lines, lines' := ImageLines(image.values, image.entries, date),
                         ImageLines(image'.values, image'.entries, date);
    var line := name + "=" + value;
    CommentNameLines(image, name, value, date);
    ImageLinesHaveNoNewline(image.values, image.entries, date);
    SplitJoin(lines');
    AddLinesAppend(EMPTY, lines', [""]);
    LinesReadBack(EMPTY, image.values, image.entries, date);
    RebuiltFromNothing(image, date);
    if lines' != lines {
      AddLinesAppend(EMPTY, lines, [line]);
      AddLinesOne(AddLines(EMPTY, lines).value, line);
      assert line[0] == '#';
    }
    AddLinesOne(AddLines(EMPTY, lines').value, "");
  }

  lemma CommentNameIsPlain(image: Image, name: string, value: string, date: Date)
    requires WellFormed(image) && name != "" && name[0] == '#' && '\n' !in name && '\n' !in value
    ensures var image' := AfterSet(image, name, value); PlainEntries(image'.values, image'.entries, date)
  {
    var image' := AfterSet(image, name, value);
    forall e, l | e in image'.entries && l in EntryLines(image'.values, e, date)
      ensures Plain(l)
    {
      if e.kind == NameLine {
        assert e.text == name || (e in image.entries && GoodEntry(image.values, e) && GoodName(e.text));
        assert l[0] == e.text[0];
      } else {
        assert GoodEntry(image.values, e);
      }
    }
  }

  /** A variable whose name starts like a comment is gone after saving and loading, and the others are
      unharmed, unless a line is too long to be loaded at all. */
  lemma CommentNameIsLost(image: Image, name: string, value: string, date: Date)
    requires WellFormed(image) && name != "" && name[0] == '#' && '\n' !in name && '\n' !in value
    ensures match ReadFile(WriteText(AfterSet(image, name, value), date))
      case Some(loaded) => loaded.values == image.values
      case None => !ShortLines(AfterSet(image, name, value), date)
  {
    hide ReadText, WriteText, Fits, ShortLines, SplitLines;
    CommentTextReads(image, name, value, date);
    CommentNameIsPlain(image, name, value, date);
    SavedFileFitsIff(AfterSet(image, name, value), date);
  }

  /** Whatever is set, by whatever name: it survives saving and loading exactly when its name and value are
      good, which SetVariableValue does not check, and every line that is written is short. */
  lemma SetSurvivesIff(image: Image, name: string, value: string, date: Date)
    requires WellFormed(image)
    ensures (match ReadFile(WriteText(AfterSet(image, name, value), date))
             case Some(loaded) => name in loaded.values && loaded.values[name] == value
             case None => false)
       <==> GoodName(name) && GoodValue(value) && ShortLines(AfterSet(image, name, value), date)
  {
    assert CleanName(name) && GoodValue(value) ==> name != "" && '\n' !in name && '\n' !in value;
    hide ReadText, WriteText, CleanName, GoodValue, Fits, ShortLines, SplitLines;
    var text := WriteText(AfterSet(image, name, value), date);
    FileLoads(text);
    if GoodName(name) && GoodValue(value) {
      SetKeepsWellFormed(image, name, value);
      SaveThenLoad(AfterSet(image, name, value), date);
    } else if CleanName(name) && GoodValue(value) {
      CommentNameIsLost(image, name, value, date);
    }
  }

  /** When all other lines are short, the line of the variable decides. */
  lemma SetLineDecides(image: Image, name: string, value: string, date: Date)
    requires WellFormed(image) && ShortLines(image, date) && GoodName(name)
    ensures ShortLines(AfterSet(image, name, value), date) <==> |name| + 1 + |value| < 2048
  {
    var next := AfterSet(image, name, value);
    NamedAfterSet(image, name, value);
    assert EntryShort(next.values, Entry(NameLine, name), date) <==> |name| + 1 + |value| < MAX_LINE_LENGTH;
    forall e | e in next.entries && e != Entry(NameLine, name)
      ensures EntryShort(next.values, e, date)
    {
      assert EntryShort(image.values, e, date) && e == Entry(e.kind, e.text);
    }
  }

  lemma NamedAfterSet(image: Image, name: string, value: string)
    requires WellFormed(image) && GoodName(name)
    ensures Entry(NameLine, name) in AfterSet(image, name, value).entries
  {
    if e :| e in image.entries && e.text == name {
      assert GoodEntry(image.values, e) && e == Entry(e.kind, name);
    }
  }

  /** An empty name and an empty value make a file that can no longer be read at all. */
  lemma EmptyNameSpoilsFile(date: Date)
    ensures ReadText(WriteText(AfterSet(EMPTY, "", ""), date)) == None
  {
    var image, e := AfterSet(EMPTY, "", ""), Entry(NameLine, "");
    assert image.entries == [e] && [e][1..] == [];
    assert EntryLines(image.values, e, date)[0] == "=";
    assert EntryLines(image.values, e, date) == ["="];
    assert ImageLines(image.values, [e], date) == ["="] + [];
    assert JoinLines(["="]) == "=" + "\n" + "" by {
      assert ["="][1..] == [];
    }
    SplitFirst("=", "");
    AddLinesFails(EMPTY, ["="] + SplitLines(""));
    assert Refused("=") && "=" in ["="] + SplitLines("");
  }
}
