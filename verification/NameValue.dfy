/** The NAME=VALUE configuration file: its parser and printer, and the accessors that change it in memory. */
module NameValue {
  import opened Bytes

  const MAX_LINE_LENGTH := 2048
  const COMMENT_GENERATE := "# Generated on: "

  datatype Kind = NameLine | CommentLine | EmptyLine

  /** One line of the file image: a variable's name, a whole comment, or nothing. */
  datatype Entry = Entry(kind: Kind, text: string)

  type Values = map<string, string>

  /** A date as it is stamped on the file. */
  type Date = d: string | '\n' !in d

  // ---------- lines ----------

  predicate Blank(c: char) { c == ' ' || c == '\t' }

  function TrimLeft(s: string): string {
    if s != [] && Blank(s[0]) then TrimLeft(s[1..]) else s
  }

  function TrimRight(s: string): string {
    if s != [] && Blank(s[|s| - 1]) then TrimRight(s[..|s| - 1]) else s
  }

  function Trim(s: string): string { TrimRight(TrimLeft(s)) }

  /** What `strtok(line, "=")` takes and what is left for the value, or None for a line of only "=". */
  function SplitPair(line: string): Option<(string, string)>
    decreases |line|
  {
    if line == [] then None
    else if line[0] == '=' then SplitPair(line[1..])
    else
      var i := IndexOf(line, '=');
      Some((line[..i], if i < |line| then line[i + 1..] else ""))
  }

  datatype Parsed = Nothing | Comment(text: string) | Pair(name: string, value: string) | Bad

  /** The reader moves past spaces, but not past tabs, before it looks at a line. */
  function SkipSpaces(line: string): (l: string)
    ensures |l| <= |line|
  {
    if line != "" && line[0] == ' ' then SkipSpaces(line[1..]) else line
  }

  function ParseLine(line: string): Parsed {
    var l := SkipSpaces(line);
    if l == "" then Nothing
    else if l[0] == '#' then Comment(l)
    else match SplitPair(l)
         case None => Bad
         case Some((name, value)) => Pair(Trim(name), Trim(value))
  }

  /** The pieces between newlines; the piece after the last newline is read too, even when empty. */
  function SplitLines(text: string): (lines: seq<string>)
    ensures lines != []
    decreases |text|
  {
    var i := IndexOf(text, '\n');
    [text[..i]] + if i < |text| then SplitLines(text[i + 1..]) else []
  }

  function JoinLines(lines: seq<string>): string {
    if lines == [] then "" else lines[0] + "\n" + JoinLines(lines[1..])
  }

  // ---------- a whole file ----------

  datatype Image = Image(values: Values, entries: seq<Entry>)

  const EMPTY := Image(map[], [])

  function AddLine(image: Image, line: string): Option<Image> {
    match ParseLine(line)
    case Nothing => Some(image.(entries := image.entries + [Entry(EmptyLine, "")]))
    case Comment(text) => Some(image.(entries := image.entries + [Entry(CommentLine, text)]))
    case Pair(name, value) =>
      if name == "" then Some(image)
      else Some(Image(image.values[name := value], image.entries + [Entry(NameLine, name)]))
    case Bad => None
  }

  function AddLines(image: Image, lines: seq<string>): Option<Image>
    decreases |lines|
  {
    if lines == [] then Some(image) else
    match AddLine(image, lines[0])
    case None => None
    case Some(next) => AddLines(next, lines[1..])
  }

  function ReadText(text: string): Option<Image> { AddLines(EMPTY, SplitLines(text)) }

  predicate Generated(text: string) { COMMENT_GENERATE <= text }

  /** The lines written for an entry; the generated-date comment gets a new date. */
  function EntryLines(values: Values, entry: Entry, date: Date): seq<string> {
    match entry.kind
    case NameLine => if entry.text in values then [entry.text + "=" + values[entry.text]] else []
    case CommentLine => [if Generated(entry.text) then COMMENT_GENERATE + date else entry.text]
    case EmptyLine => [""]
  }

  function ImageLines(values: Values, entries: seq<Entry>, date: Date): seq<string> {
    if entries == [] then [] else EntryLines(values, entries[0], date) + ImageLines(values, entries[1..], date)
  }

  function WriteText(image: Image, date: Date): string {
    JoinLines(ImageLines(image.values, image.entries, date))
  }

  // ---------- what the line buffer holds ----------

  /** The pointer to the line buffer is never put back after it skipped spaces, so every line must fit
      after all the spaces skipped before it. */
  predicate Fits(lines: seq<string>, skipped: nat) {
    lines != [] ==>
      && skipped + |lines[0]| < MAX_LINE_LENGTH
      && Fits(lines[1..], skipped + |lines[0]| - |SkipSpaces(lines[0])|)
  }

  /** What reading a file gives: nothing when the reader throws, or when a line does not fit the line buffer;
      the buffer is overrun then, or the stream fails and the loop never sees the end of the file. */
  function ReadFile(text: string): Option<Image> {
    if Fits(SplitLines(text), 0) then ReadText(text) else None
  }

  /** A line that makes the reader throw: nothing but separators after its leading spaces. */
  predicate Refused(line: string) {
    var l := SkipSpaces(line);
    l != "" && forall i :: 0 <= i < |l| ==> l[i] == '='
  }

  lemma {:induction false} SplitPairFails(line: string)
    ensures SplitPair(line) == None <==> forall i :: 0 <= i < |line| ==> line[i] == '='
  {
    if line != "" && line[0] == '=' {
      SplitPairFails(line[1..]);
      assert forall i :: 1 <= i < |line| ==> line[i] == line[1..][i - 1];
    }
  }

  lemma {:induction false} AddLinesFails(image: Image, lines: seq<string>)
    ensures AddLines(image, lines) == None <==> exists l :: l in lines && Refused(l)
    decreases |lines|
  {
    if lines != [] {
      SplitPairFails(SkipSpaces(lines[0]));
      match AddLine(image, lines[0])
      case None => assert lines[0] in lines && Refused(lines[0]);
      case Some(next) =>
        AddLinesFails(next, lines[1..]);
        assert forall l :: l in lines <==> l == lines[0] || l in lines[1..];
    }
  }

  lemma AddLinesNone(image: Image)
    ensures AddLines(image, []) == Some(image)
  {
  }

  lemma SkipTwice(line: string)
    ensures SkipSpaces(SkipSpaces(line)) == SkipSpaces(line)
  {
  }

  lemma SpacesDoNotMatter(image: Image, line: string)
    ensures AddLine(image, SkipSpaces(line)) == AddLine(image, line)
  {
    SkipTwice(line);
  }

  /** The first of the lines still to be read. */
  lemma LinesUnfold(rest: string, image: Image, skipped: nat)
    requires Fits(SplitLines(rest), skipped)
    ensures var i := IndexOf(rest, '\n');
      var line := rest[..i];
      var more := if i < |rest| then SplitLines(rest[i + 1..]) else [];
      && SkipSpaces(SkipSpaces(line)) == SkipSpaces(line)
      && skipped + |line| < MAX_LINE_LENGTH
      && Fits(more, skipped + |line| - |SkipSpaces(line)|)
      && AddLines(image, SplitLines(rest))
         == match AddLine(image, SkipSpaces(line)) case None => None case Some(next) => AddLines(next, more)
  {
    hide SkipSpaces, AddLine, SplitLines;
    var i := IndexOf(rest, '\n');
    var line := rest[..i];
    SkipTwice(line);
    SpacesDoNotMatter(image, line);
    FirstLine(rest);
  }

  lemma FirstLine(rest: string)
    ensures var i := IndexOf(rest, '\n');
      var lines := SplitLines(rest);
      lines[0] == rest[..i] && lines[1..] == if i < |rest| then SplitLines(rest[i + 1..]) else []
  {
  }

  method AfterSpaces(line: string) returns (buffer: string)
    ensures buffer == SkipSpaces(line) && |buffer| <= |line|
  {
    buffer := line;
    while buffer != "" && buffer[0] == ' '
      invariant SkipSpaces(buffer) == SkipSpaces(line)
      decreases |buffer|
    {
      buffer := buffer[1..];
    }
  }

  // ---------- the objects ----------

  class NameValueParser {
    var nameValue: Values
    var fullFileData: seq<Entry>

    constructor ()
      ensures Now() == EMPTY
    {
      nameValue, fullFileData := map[], [];
    }

    ghost function Now(): Image
      reads this
    {
      Image(nameValue, fullFileData)
    }

    method AddNameValue(name: string, value: string)
      modifies this
      ensures Now() == if Trim(name) == "" then old(Now())
                       else Image(old(nameValue)[Trim(name) := Trim(value)],
                                  old(fullFileData) + [Entry(NameLine, Trim(name))])
    {
      var n, v := Trim(name), Trim(value);
      if n != "" {
        fullFileData := fullFileData + [Entry(NameLine, n)];
        nameValue := nameValue[n := v];
      }
    }

    /** What the reader's loop does with one line, from the first character that is no space. */
    method TakeLine(buffer: string) returns (ok: bool)
      requires SkipSpaces(buffer) == buffer
      modifies this
      ensures ok <==> AddLine(old(Now()), buffer) != None
      ensures ok ==> AddLine(old(Now()), buffer) == Some(Now())
    {
      if buffer == "" {
        fullFileData := fullFileData + [Entry(EmptyLine, "")];
        return true;
      }
      if buffer[0] == '#' {
        fullFileData := fullFileData + [Entry(CommentLine, buffer)];
        return true;
      }
      var pair := SplitPair(buffer);
      if pair == None {
        return false;
      }
      AddNameValue(pair.value.0, pair.value.1);
      ok := true;
    }

    /** Reads a whole file. It throws exactly when some line is nothing but "=". The line buffer, whose
        pointer only ever moves forward, is never overrun. */
    method ReadConfigurationData(text: string) returns (ok: bool)
      requires Fits(SplitLines(text), 0)
      modifies this
      ensures ok <==> !exists l :: l in SplitLines(text) && Refused(l)
      ensures ReadFile(text) == if ok then Some(Now()) else None
    {
      hide Fits, Refused, SplitLines, SkipSpaces, AddLine, AddLines;
      AddLinesFails(EMPTY, SplitLines(text));
      AddLinesNone(EMPTY);
      nameValue, fullFileData := map[], [];
      var rest, eof, skipped: nat := text, false, 0;
      while !eof
        invariant if eof then ReadText(text) == Some(Now())
                  else ReadText(text) == AddLines(Now(), SplitLines(rest)) && Fits(SplitLines(rest), skipped)
        decreases !eof, |rest|
      {
        var i := IndexOf(rest, '\n');
        var line := rest[..i];
        eof := i == |rest|;
        LinesUnfold(rest, Now(), skipped);
        AddLinesNone(Now());
        rest := if eof then "" else rest[i + 1..];
        assert skipped + |line| < MAX_LINE_LENGTH;
        var buffer := AfterSpaces(line);
        skipped := skipped + |line| - |buffer|;
        ok := TakeLine(buffer);
        if !ok {
          return;
        }
        AddLinesNone(Now());
      }
      ok := true;
    }

    /** What one entry puts out: the switch in the loop of WriteConfigurationData. */
    method WriteEntry(entry: Entry, date: Date) returns (piece: string)
      ensures piece == Piece(nameValue, entry, date)
      ensures entry.kind == NameLine && entry.text in nameValue ==>
        piece == entry.text + "=" + nameValue[entry.text] + "\n"
      ensures entry.kind == CommentLine && !("# Generated on: " <= entry.text) ==> piece == entry.text + "\n"
    {
      piece := "";
      match entry.kind {
        case NameLine =>
          if entry.text in nameValue {
            piece := entry.text + "=" + nameValue[entry.text] + "\n";
          }
        case CommentLine =>
          piece := (if Generated(entry.text) then COMMENT_GENERATE + date else entry.text) + "\n";
        case EmptyLine =>
          piece := "\n";
      }
    }

    method WriteConfigurationData(date: Date) returns (text: string)
      ensures text == WriteText(Now(), date)
    {
      hide JoinLines, ImageLines, Piece;
      text := "";
      ghost var left := WriteText(Now(), date);
      assert fullFileData[0..] == fullFileData;
      for i := 0 to |fullFileData|
        invariant text + left == WriteText(Now(), date)
        invariant left == JoinLines(ImageLines(nameValue, fullFileData[i..], date))
      {
        var piece := WriteEntry(fullFileData[i], date);
        WriteFirst(nameValue, fullFileData[i..], date);
        assert fullFileData[i..][1..] == fullFileData[i + 1..];
        left := JoinLines(ImageLines(nameValue, fullFileData[i + 1..], date));
        text := text + piece;
      }
      assert fullFileData[|fullFileData|..] == [] && text + "" == text;
      WriteNothing(nameValue, date);
    }

    method GetVariableValue(name: string) returns (value: string)
      ensures value == if name in nameValue then nameValue[name] else ""
    {
      value := if name in nameValue then nameValue[name] else "";
    }

    method SetVariableValue(name: string, value: string)
      modifies this
      ensures Now() == AfterSet(old(Now()), name, value)
      ensures nameValue == old(nameValue)[name := value]
      ensures fullFileData == old(fullFileData) + if (exists e :: e in old(fullFileData) && e.text == name) then []
                                                  else [Entry(NameLine, name)]
    {
      var found, i := false, 0;
      while i < |fullFileData| && !found
        invariant 0 <= i <= |fullFileData|
        invariant found <==> exists e :: e in fullFileData[..i] && e.text == name
      {
        found := fullFileData[i].text == name;
        i := i + 1;
        assert fullFileData[..i] == fullFileData[..i - 1] + [fullFileData[i - 1]];
      }
      assert found ==> exists e :: e in fullFileData && e.text == name;
      assert !found ==> fullFileData[..i] == fullFileData;
      if !found {
        fullFileData := fullFileData + [Entry(NameLine, name)];
      }
      nameValue := nameValue[name := value];
    }

    method RemoveVariable(name: string)
      modifies this
      ensures Now() == AfterRemove(old(Now()), name)
      ensures nameValue.Keys == old(nameValue).Keys - {name}
      ensures forall n :: n in nameValue ==> nameValue[n] == old(nameValue)[n]
      ensures fullFileData == Without(old(fullFileData), Entry(NameLine, name))
    {
      fullFileData := Without(fullFileData, Entry(NameLine, name));
      nameValue := nameValue - {name};
    }
  }

  lemma WriteNothing(values: Values, date: Date)
    ensures JoinLines(ImageLines(values, [], date)) == ""
  {
  }

  function Piece(values: Values, entry: Entry, date: Date): string {
    var lines := EntryLines(values, entry, date);
    if lines == [] then "" else lines[0] + "\n"
  }

  lemma WriteFirst(values: Values, entries: seq<Entry>, date: Date)
    requires entries != []
    ensures JoinLines(ImageLines(values, entries, date))
         == Piece(values, entries[0], date) + JoinLines(ImageLines(values, entries[1..], date))
  {
    var lines := EntryLines(values, entries[0], date);
    JoinLinesAppend(lines, ImageLines(values, entries[1..], date));
    if lines != [] {
      assert lines == [lines[0]] && JoinLines([]) == "" && lines[1..] == [];
    }
  }

  /** Any entry with the text of the name, of whatever kind, stops a new entry from being added. */
  ghost function AfterSet(image: Image, name: string, value: string): Image {
    Image(image.values[name := value],
          if exists e :: e in image.entries && e.text == name then image.entries
          else image.entries + [Entry(NameLine, name)])
  }

  ghost function AfterRemove(image: Image, name: string): Image {
    Image(image.values - {name}, Without(image.entries, Entry(NameLine, name)))
  }

  /** `list::remove`. */
  function Without(entries: seq<Entry>, gone: Entry): (r: seq<Entry>)
    ensures forall e :: e in r <==> e in entries && e != gone
  {
    if entries == [] then []
    else (if entries[0] == gone then [] else [entries[0]]) + Without(entries[1..], gone)
  }

  /** The others stay as they are, in their order. */
  lemma {:induction false} WithoutAppend(left: seq<Entry>, right: seq<Entry>, gone: Entry)
    ensures Without(left + right, gone) == Without(left, gone) + Without(right, gone)
  {
    if left == [] {
      assert left + right == right;
    } else {
      assert (left + right)[0] == left[0] && (left + right)[1..] == left[1..] + right;
      WithoutAppend(left[1..], right, gone);
    }
  }

  lemma WithoutOne(e: Entry, gone: Entry)
    ensures Without([e], gone) == if e == gone then [] else [e]
  {
  }

  lemma {:induction false} JoinLinesAppend(left: seq<string>, right: seq<string>)
    ensures JoinLines(left + right) == JoinLines(left) + JoinLines(right)
  {
    if left == [] {
      assert left + right == right;
    } else {
      assert (left + right)[0] == left[0] && (left + right)[1..] == left[1..] + right;
      JoinLinesAppend(left[1..], right);
    }
  }
}
