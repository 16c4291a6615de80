/** Modules rendered into one file, and that file split back into one text per module. */
module Layout {
  import opened Basics

  type Text = seq<u8>

  const NEWLINE: u8 := 10
  const RETURN: u8 := 13

  function Opening(): Text { Ascii("pub mod ") }
  function Brace(): Text { Ascii(" {") }
  function Closing(): Text { Ascii("}") }
  function Indent(): Text { Ascii("    ") }

  // ---- Lines ----------------------------------------------------------------------------------

  /** Where the first line ends, its newline included. */
  function LineEnd(text: Text): (end: nat)
    ensures end <= |text| && (text != [] ==> 0 < end)
  {
    if text == [] then 0
    else if text[0] == NEWLINE then 1
    else 1 + LineEnd(text[1..])
  }

  /** The text cut after every newline. */
  function RawLines(text: Text): seq<Text>
    decreases |text|
  {
    if text == [] then [] else [text[..LineEnd(text)]] + RawLines(text[LineEnd(text)..])
  }

  /** A line without the newline that ends it, or the carriage return and newline. */
  function Bare(raw: Text): Text {
    if raw == [] || raw[|raw| - 1] != NEWLINE then raw
    else
      var line := raw[..|raw| - 1];
      if line != [] && line[|line| - 1] == RETURN then line[..|line| - 1] else line
  }

  function BareAll(raws: seq<Text>): seq<Text> {
    seq(|raws|, i requires 0 <= i < |raws| => Bare(raws[i]))
  }

  lemma BareAllConcat(first: seq<Text>, second: seq<Text>)
    ensures BareAll(first + second) == BareAll(first) + BareAll(second)
  {
  }

  lemma BareAllCons(first: Text, rest: seq<Text>)
    ensures BareAll([first] + rest) == [Bare(first)] + BareAll(rest)
  {
  }

  function Lines(text: Text): seq<Text> {
    BareAll(RawLines(text))
  }

  /** Empty, or a newline at the end. */
  predicate Terminated(text: Text) {
    text != [] ==> text[|text| - 1] == NEWLINE
  }

  /** One line and its newline. */
  predicate IsRawLine(raw: Text) {
    raw != [] && raw[|raw| - 1] == NEWLINE && forall i :: 0 <= i < |raw| - 1 ==> raw[i] != NEWLINE
  }

  lemma {:induction false} LineEndOfRawLine(raw: Text, rest: Text)
    requires IsRawLine(raw)
    ensures LineEnd(raw + rest) == |raw|
    decreases |raw|
  {
    if |raw| > 1 {
      assert raw[0] != NEWLINE;
      assert (raw + rest)[1..] == raw[1..] + rest;
      LineEndOfRawLine(raw[1..], rest);
    }
  }

  lemma RawLinesCons(raw: Text, rest: Text)
    requires IsRawLine(raw)
    ensures RawLines(raw + rest) == [raw] + RawLines(rest)
  {
    LineEndOfRawLine(raw, rest);
    assert (raw + rest)[|raw|..] == rest;
  }

  lemma {:induction false} FirstRawLine(text: Text)
    requires text != [] && Terminated(text)
    ensures IsRawLine(text[..LineEnd(text)]) && Terminated(text[LineEnd(text)..])
    decreases |text|
  {
    if text[0] != NEWLINE {
      FirstRawLine(text[1..]);
      var end := LineEnd(text);
      assert text[..end] == [text[0]] + text[1..][..end - 1];
      assert text[end..] == text[1..][end - 1..];
    }
  }

  lemma RawLinesFirst(text: Text)
    requires text != [] && Terminated(text)
    ensures var end := LineEnd(text);
            && text == text[..end] + text[end..]
            && IsRawLine(text[..end]) && Terminated(text[end..])
            && RawLines(text) == [text[..end]] + RawLines(text[end..])
  {
    FirstRawLine(text);
    var end := LineEnd(text);
    assert text == text[..end] + text[end..];
    RawLinesCons(text[..end], text[end..]);
  }

  lemma {:induction false} RawLinesConcat(first: Text, second: Text)
    requires Terminated(first)
    ensures RawLines(first + second) == RawLines(first) + RawLines(second)
    decreases |first|
  {
    if first == [] {
      assert first + second == second;
    } else {
      RawLinesFirst(first);
      var raw, rest := first[..LineEnd(first)], first[LineEnd(first)..];
      Regroup(raw, rest, second);
      RawLinesCons(raw, rest + second);
      RawLinesConcat(rest, second);
      Regroup([raw], RawLines(rest), RawLines(second));
    }
  }

  lemma Regroup<T>(a: seq<T>, b: seq<T>, c: seq<T>)
    ensures (a + b) + c == a + (b + c)
  {
  }

  lemma LinesConcat(first: Text, second: Text)
    requires Terminated(first)
    ensures Lines(first + second) == Lines(first) + Lines(second)
  {
    RawLinesConcat(first, second);
  }

  function Ended(line: Text): Text {
    line + [NEWLINE]
  }

  /** Lines put back together, each with a newline. */
  function Joined(lines: seq<Text>): Text {
    if lines == [] then [] else Ended(lines[0]) + Joined(lines[1..])
  }

  /** What survives being read line by line: everything but carriage returns before newlines. */
  function Normalised(text: Text): Text {
    Joined(Lines(text))
  }

  predicate HasReturnAtLineEnd(text: Text) {
    exists i :: 0 < i < |text| && text[i] == NEWLINE && text[i - 1] == RETURN
  }

  lemma BareOfRawLine(raw: Text)
    requires IsRawLine(raw)
    ensures |Ended(Bare(raw))| <= |raw|
    ensures Ended(Bare(raw)) == raw <==> !HasReturnAtLineEnd(raw)
  {
    var last := |raw| - 1;
    if last > 0 && raw[last - 1] == RETURN {
      assert raw[last] == NEWLINE;
    }
  }

  lemma {:induction false} NormalisedIsNoLonger(text: Text)
    requires Terminated(text)
    ensures |Normalised(text)| <= |text|
    decreases |text|
  {
    if text != [] {
      FirstRawLine(text);
      var raw, rest := text[..LineEnd(text)], text[LineEnd(text)..];
      NormalisedNext(text);
      BareOfRawLine(raw);
      NormalisedIsNoLonger(rest);
    }
  }

  lemma NormalisedNext(text: Text)
    requires Terminated(text) && text != []
    ensures var raw, rest := text[..LineEnd(text)], text[LineEnd(text)..];
            Normalised(text) == Ended(Bare(raw)) + Normalised(rest)
  {
    var raw, rest := text[..LineEnd(text)], text[LineEnd(text)..];
    RawLinesFirst(text);
    BareAllCons(raw, RawLines(rest));
    JoinedCons(Bare(raw), Lines(rest));
  }

  lemma JoinedCons(first: Text, rest: seq<Text>)
    ensures Joined([first] + rest) == Ended(first) + Joined(rest)
  {
    assert ([first] + rest)[1..] == rest;
  }

  lemma ReturnSplits(raw: Text, rest: Text)
    requires IsRawLine(raw)
    ensures HasReturnAtLineEnd(raw + rest) <==> HasReturnAtLineEnd(raw) || HasReturnAtLineEnd(rest)
  {
    var text := raw + rest;
    if HasReturnAtLineEnd(text) {
      var i :| 0 < i < |text| && text[i] == NEWLINE && text[i - 1] == RETURN;
      if i < |raw| {
        assert raw[i] == NEWLINE && raw[i - 1] == RETURN;
      } else {
        assert rest[i - |raw|] == NEWLINE;
        assert i > |raw|;
        assert rest[i - |raw| - 1] == RETURN;
      }
    }
    if HasReturnAtLineEnd(raw) {
      var i :| 0 < i < |raw| && raw[i] == NEWLINE && raw[i - 1] == RETURN;
      assert text[i] == NEWLINE && text[i - 1] == RETURN;
    }
    if HasReturnAtLineEnd(rest) {
      var i :| 0 < i < |rest| && rest[i] == NEWLINE && rest[i - 1] == RETURN;
      assert text[|raw| + i] == NEWLINE && text[|raw| + i - 1] == RETURN;
    }
  }

  /** Reading line by line loses nothing exactly when no line ends in a carriage return. */
  lemma {:induction false} NormalisedExactlyWhen(text: Text)
    requires Terminated(text)
    ensures Normalised(text) == text <==> !HasReturnAtLineEnd(text)
    decreases |text|
  {
    if text != [] {
      FirstRawLine(text);
      var raw, rest := text[..LineEnd(text)], text[LineEnd(text)..];
      assert text == raw + rest;
      assert Lines(text)[1..] == Lines(rest);
      BareOfRawLine(raw);
      ReturnSplits(raw, rest);
      NormalisedExactlyWhen(rest);
      NormalisedIsNoLonger(rest);
      var kept := Ended(Bare(raw));
      assert Normalised(text) == kept + Normalised(rest);
      if Normalised(text) == text {
        assert |kept| == |raw|;
        assert kept == text[..|raw|] == raw;
        assert Normalised(rest) == text[|raw|..];
      }
    }
  }

  // ---- Rendering a module ------------------------------------------------------------------------

  function IndentedLine(raw: Text): Text {
    if raw == [NEWLINE] then raw else Indent() + raw
  }

  /** A body shifted in one level, blank lines left alone. */
  function Indented(raws: seq<Text>): Text {
    if raws == [] then [] else Indented(raws[..|raws| - 1]) + IndentedLine(raws[|raws| - 1])
  }

  function HeaderLine(name: Text): Text {
    Ended(Opening() + name + Brace())
  }

  function ModuleText(name: Text, body: Text): Text {
    HeaderLine(name) + Indented(RawLines(body)) + Ended(Closing())
  }

  method RenderModule(out: Text, name: Text, body: Text) returns (out': Text)
    ensures out' == out + ModuleText(name, body)
  {
    var text := Opening() + name;
    text := text + Brace();
    text := text + [NEWLINE];
    var raws := RawLines(body);
    for i := 0 to |raws|
      invariant text == HeaderLine(name) + Indented(raws[..i])
    {
      assert raws[..i + 1][..i] == raws[..i];
      Regroup(HeaderLine(name), Indented(raws[..i]), IndentedLine(raws[i]));
      text := text + IndentedLine(raws[i]);
    }
    assert raws[..|raws|] == raws;
    out' := out + (text + Ended(Closing()));
  }

  // ---- Splitting ---------------------------------------------------------------------------------

  function StripPrefix(line: Text, prefix: Text): Option<Text> {
    if prefix <= line then Some(line[|prefix|..]) else None
  }

  function StripSuffix(line: Text, suffix: Text): Option<Text> {
    if |suffix| <= |line| && line[|line| - |suffix|..] == suffix then Some(line[..|line| - |suffix|]) else None
  }

  /** The module a line opens, where it opens one. */
  function ModuleOpened(line: Text): Option<Text> {
    match StripPrefix(line, Opening())
    case Some(rest) => StripSuffix(rest, Brace())
    case None => None
  }

  function Unindented(line: Text): Text {
    match StripPrefix(line, Indent())
    case Some(rest) => rest
    case None => line
  }

  /** How many lines come before the one that closes a module. */
  function BodyLength(lines: seq<Text>): (r: nat)
    ensures r <= |lines|
  {
    if lines == [] || lines[0] == Closing() then 0 else 1 + BodyLength(lines[1..])
  }

  function UnindentedAll(lines: seq<Text>): Text {
    if lines == [] then [] else UnindentedAll(lines[..|lines| - 1]) + Ended(Unindented(lines[|lines| - 1]))
  }

  datatype Module = Module(name: Text, body: Text)

  datatype Split = Split(root: Text, modules: seq<Module>)

  /** The lines after the ones a module takes, its closing brace included. */
  function AfterBody(lines: seq<Text>): seq<Text> {
    var length := BodyLength(lines);
    if length < |lines| then lines[length + 1..] else []
  }

  function Plus(first: Split, second: Split): Split {
    Split(first.root + second.root, first.modules + second.modules)
  }

  lemma PlusRegroups(a: Split, b: Split, c: Split)
    ensures Plus(Plus(a, b), c) == Plus(a, Plus(b, c))
  {
  }

  /** What the first line gives: itself for the root, or the module it opens. */
  function FirstPart(lines: seq<Text>): Split
    requires lines != []
  {
    match ModuleOpened(lines[0])
    case None => Split(Ended(lines[0]), [])
    case Some(name) => Split([], [Module(name, UnindentedAll(lines[1..][..BodyLength(lines[1..])]))])
  }

  /** The lines after the first part. */
  function AfterFirst(lines: seq<Text>): (rest: seq<Text>)
    requires lines != []
    ensures |rest| < |lines|
  {
    if ModuleOpened(lines[0]).None? then lines[1..] else AfterBody(lines[1..])
  }

  function SplitLines(lines: seq<Text>): Split
    decreases |lines|
  {
    if lines == [] then Split([], []) else Plus(FirstPart(lines), SplitLines(AfterFirst(lines)))
  }

  method TakeBody(lines: seq<Text>, start: nat) returns (body: Text, next: nat)
    requires start <= |lines|
    ensures body == UnindentedAll(lines[start..][..BodyLength(lines[start..])])
    ensures start <= next <= |lines| && lines[next..] == AfterBody(lines[start..])
  {
    body := [];
    ghost var inner := lines[start..];
    var taken := 0;
    while start + taken < |lines| && lines[start + taken] != Closing()
      invariant start + taken <= |lines|
      invariant BodyLength(inner) == taken + BodyLength(inner[taken..])
      invariant body == UnindentedAll(inner[..taken])
    {
      var line := lines[start + taken];
      TakeOneMore(inner, taken);
      body := body + Ended(Unindented(line));
      taken := taken + 1;
    }
    next := if start + taken < |lines| then start + taken + 1 else start + taken;
  }

  lemma TakeOneMore(lines: seq<Text>, taken: nat)
    requires taken < |lines| && lines[taken] != Closing()
    ensures BodyLength(lines[taken..]) == 1 + BodyLength(lines[taken + 1..])
    ensures UnindentedAll(lines[..taken + 1]) == UnindentedAll(lines[..taken]) + Ended(Unindented(lines[taken]))
  {
    assert lines[taken..][1..] == lines[taken + 1..];
    assert lines[..taken + 1][..taken] == lines[..taken];
  }

  lemma PlusRoot(done: Split, text: Text)
    ensures Plus(done, Split(text, [])) == Split(done.root + text, done.modules)
  {
  }

  lemma PlusModule(done: Split, module_: Module)
    ensures Plus(done, Split([], [module_])) == Split(done.root, done.modules + [module_])
  {
  }

  lemma SplitNext(all: Split, done: Split, rest: seq<Text>)
    requires rest != [] && all == Plus(done, SplitLines(rest))
    ensures all == Plus(Plus(done, FirstPart(rest)), SplitLines(AfterFirst(rest)))
  {
    PlusRegroups(done, FirstPart(rest), SplitLines(AfterFirst(rest)));
  }

  method SplitModules(source: Text) returns (root: Text, modules: seq<Module>)
    ensures Split(root, modules) == SplitLines(Lines(source))
  {
    root, modules := [], [];
    var lines := Lines(source);
    var position := 0;
    assert lines[0..] == lines;
    while position < |lines|
      invariant position <= |lines|
      invariant SplitLines(lines) == Plus(Split(root, modules), SplitLines(lines[position..]))
      decreases |lines| - position
    {
      var line := lines[position];
      ghost var rest := lines[position..];
      ghost var done := Split(root, modules);
      assert rest[1..] == lines[position + 1..];
      SplitNext(SplitLines(lines), done, rest);
      var header := ModuleOpened(line);
      if header.None? {
        root := root + Ended(line);
        position := position + 1;
        PlusRoot(done, Ended(line));
      } else {
        var body;
        body, position := TakeBody(lines, position + 1);
        modules := modules + [Module(header.value, body)];
        PlusModule(done, Module(header.value, body));
      }
      assert lines[position..] == AfterFirst(rest);
    }
  }

  // ---- Splitting undoes rendering ----------------------------------------------------------------

  lemma BareOfIndented(raw: Text)
    requires IsRawLine(raw)
    ensures IsRawLine(IndentedLine(raw))
    ensures Unindented(Bare(IndentedLine(raw))) == Bare(raw)
    ensures Bare(IndentedLine(raw)) != Closing()
    ensures ModuleOpened(Bare(IndentedLine(raw))).None?
  {
    if raw != [NEWLINE] {
      var indented := Indent() + raw;
      assert indented[..|indented| - 1] == Indent() + raw[..|raw| - 1];
      assert Bare(indented) == Indent() + Bare(raw) by {
        if |raw| > 1 && raw[|raw| - 2] == RETURN {
          assert indented[..|indented| - 1][..|indented| - 2] == Indent() + raw[..|raw| - 1][..|raw| - 2];
        }
      }
      assert Bare(indented)[0] == 32;
    }
  }

  ghost predicate AllRawLines(raws: seq<Text>) {
    forall i :: 0 <= i < |raws| ==> IsRawLine(raws[i])
  }

  lemma {:induction false} RawLinesAreRawLines(text: Text)
    requires Terminated(text)
    ensures AllRawLines(RawLines(text))
    decreases |text|
  {
    if text != [] {
      FirstRawLine(text);
      RawLinesAreRawLines(text[LineEnd(text)..]);
    }
  }

  function IndentedAll(raws: seq<Text>): seq<Text> {
    seq(|raws|, i requires 0 <= i < |raws| => IndentedLine(raws[i]))
  }

  lemma RawLineAlone(raw: Text)
    requires IsRawLine(raw)
    ensures RawLines(raw) == [raw]
  {
    RawLinesCons(raw, []);
    assert raw + [] == raw;
  }

  lemma AddIndentedLine(before: Text, raws: seq<Text>, raw: Text)
    requires Terminated(before) && RawLines(before) == IndentedAll(raws) && IsRawLine(raw)
    ensures Terminated(before + IndentedLine(raw))
    ensures RawLines(before + IndentedLine(raw)) == IndentedAll(raws + [raw])
  {
    BareOfIndented(raw);
    RawLinesConcat(before, IndentedLine(raw));
    RawLineAlone(IndentedLine(raw));
  }

  /** The lines of an indented body are its lines, indented. */
  lemma {:induction false} RawLinesOfIndented(raws: seq<Text>)
    requires AllRawLines(raws)
    ensures Terminated(Indented(raws)) && RawLines(Indented(raws)) == IndentedAll(raws)
  {
    if raws != [] {
      var fewer, last := raws[..|raws| - 1], raws[|raws| - 1];
      RawLinesOfIndented(fewer);
      AddIndentedLine(Indented(fewer), fewer, last);
      assert fewer + [last] == raws;
    }
  }

  lemma {:induction false} JoinedSnoc(lines: seq<Text>)
    requires lines != []
    ensures Joined(lines) == Joined(lines[..|lines| - 1]) + Ended(lines[|lines| - 1])
    decreases |lines|
  {
    var last := |lines| - 1;
    if last > 0 {
      JoinedSnoc(lines[1..]);
      assert lines[1..][..last - 1] == lines[..last][1..];
      Regroup(Ended(lines[0]), Joined(lines[..last][1..]), Ended(lines[last]));
    } else {
      assert lines[1..] == [] && lines[..last] == [];
      assert Joined(lines) == Ended(lines[0]) + [];
    }
  }

  /** Taking one level of indentation off the lines of an indented body gives the body's lines back. */
  lemma {:induction false} UnindentingUndoes(raws: seq<Text>)
    requires AllRawLines(raws)
    ensures UnindentedAll(BareAll(IndentedAll(raws))) == Joined(BareAll(raws))
  {
    if raws != [] {
      var fewer, last := raws[..|raws| - 1], raws[|raws| - 1];
      UnindentingUndoes(fewer);
      BareOfIndented(last);
      var indented := BareAll(IndentedAll(raws));
      assert indented[..|indented| - 1] == BareAll(IndentedAll(fewer));
      JoinedSnoc(BareAll(raws));
      assert BareAll(raws)[..|raws| - 1] == BareAll(fewer);
    }
  }

  lemma {:induction false} BodyLengthToBrace(body: seq<Text>, rest: seq<Text>)
    requires forall i :: 0 <= i < |body| ==> body[i] != Closing()
    ensures BodyLength(body + [Closing()] + rest) == |body|
  {
    var lines := body + [Closing()] + rest;
    if body != [] {
      assert body[0] != Closing();
      assert lines[1..] == body[1..] + [Closing()] + rest;
      BodyLengthToBrace(body[1..], rest);
    }
  }

  /** What the root file is made of: its own items, and modules. */
  datatype Chunk = Items(text: Text) | Submodule(name: Text, body: Text)

  function ChunkText(chunk: Chunk): Text {
    match chunk
    case Items(text) => text
    case Submodule(name, body) => ModuleText(name, body)
  }

  function FileText(chunks: seq<Chunk>): Text {
    if chunks == [] then [] else ChunkText(chunks[0]) + FileText(chunks[1..])
  }

  /** Whole lines; items never open a module, and a module's name is on its line. */
  ghost predicate Splittable(chunk: Chunk) {
    match chunk
    case Items(text) =>
      Terminated(text) && forall i :: 0 <= i < |Lines(text)| ==> ModuleOpened(Lines(text)[i]).None?
    case Submodule(name, body) =>
      Terminated(body) && forall i :: 0 <= i < |name| ==> name[i] != NEWLINE
  }

  function PartOf(chunk: Chunk): Split {
    match chunk
    case Items(text) => Split(Normalised(text), [])
    case Submodule(name, body) => Split([], [Module(name, Normalised(body))])
  }

  function SplitOf(chunks: seq<Chunk>): Split {
    if chunks == [] then Split([], []) else Plus(PartOf(chunks[0]), SplitOf(chunks[1..]))
  }

  lemma {:induction false} SplitItems(items: seq<Text>, rest: seq<Text>)
    requires forall i :: 0 <= i < |items| ==> ModuleOpened(items[i]).None?
    ensures SplitLines(items + rest) == Plus(Split(Joined(items), []), SplitLines(rest))
  {
    if items == [] {
      assert items + rest == rest;
    } else {
      assert ModuleOpened(items[0]).None?;
      assert (items + rest)[1..] == items[1..] + rest;
      SplitItems(items[1..], rest);
      PlusRegroups(Split(Ended(items[0]), []), Split(Joined(items[1..]), []), SplitLines(rest));
    }
  }

  lemma HeaderOpens(name: Text)
    ensures ModuleOpened(Opening() + name + Brace()) == Some(name)
  {
    var line := Opening() + name + Brace();
    assert Opening() <= line;
    assert line[|Opening()|..] == name + Brace();
  }

  lemma HeaderIsRawLine(name: Text)
    requires forall i :: 0 <= i < |name| ==> name[i] != NEWLINE
    ensures IsRawLine(HeaderLine(name)) && Bare(HeaderLine(name)) == Opening() + name + Brace()
  {
    var line := Opening() + name + Brace();
    assert Brace()[0] == 32 && Brace()[1] == 123;
    assert forall i :: 0 <= i < |Opening()| ==> Opening()[i] != NEWLINE;
    assert HeaderLine(name)[..|line|] == line;
    assert line[|line| - 1] == 123;
  }

  lemma FooterIsRawLine()
    ensures IsRawLine(Ended(Closing())) && Bare(Ended(Closing())) == Closing()
  {
    assert Closing() == [125];
    assert Ended(Closing())[..1] == Closing();
  }

  lemma RawLinesOfModule(name: Text, body: Text)
    requires Splittable(Submodule(name, body))
    ensures RawLines(ModuleText(name, body))
         == [HeaderLine(name)] + (IndentedAll(RawLines(body)) + [Ended(Closing())])
  {
    var footer := Ended(Closing());
    var inner := Indented(RawLines(body));
    HeaderIsRawLine(name);
    FooterIsRawLine();
    RawLinesAreRawLines(body);
    RawLinesOfIndented(RawLines(body));
    assert ModuleText(name, body) == HeaderLine(name) + (inner + footer);
    RawLinesCons(HeaderLine(name), inner + footer);
    RawLinesConcat(inner, footer);
    RawLinesCons(footer, []);
    assert footer + [] == footer;
  }

  lemma LinesOfModule(name: Text, body: Text)
    requires Splittable(Submodule(name, body))
    ensures Terminated(ModuleText(name, body))
    ensures Lines(ModuleText(name, body))
         == [Opening() + name + Brace()] + (BareAll(IndentedAll(RawLines(body))) + [Closing()])
  {
    RawLinesOfModule(name, body);
    HeaderIsRawLine(name);
    FooterIsRawLine();
    var inner, footer := IndentedAll(RawLines(body)), Ended(Closing());
    BareAllCons(HeaderLine(name), inner + [footer]);
    BareAllConcat(inner, [footer]);
    BareAllCons(footer, []);
  }

  lemma SplitSubmodule(name: Text, body: Text, rest: seq<Text>)
    requires Splittable(Submodule(name, body))
    ensures SplitLines(Lines(ModuleText(name, body)) + rest)
         == Plus(PartOf(Submodule(name, body)), SplitLines(rest))
  {
    LinesOfModule(name, body);
    HeaderOpens(name);
    RawLinesAreRawLines(body);
    var raws := RawLines(body);
    var inner := BareAll(IndentedAll(raws));
    forall i | 0 <= i < |inner|
      ensures inner[i] != Closing()
    {
      BareOfIndented(raws[i]);
    }
    var lines := Lines(ModuleText(name, body)) + rest;
    assert lines[1..] == inner + [Closing()] + rest;
    BodyLengthToBrace(inner, rest);
    assert lines[1..][..|inner|] == inner;
    assert AfterBody(lines[1..]) == rest;
    UnindentingUndoes(raws);
  }

  lemma {:induction false} SplitChunks(chunks: seq<Chunk>)
    requires forall i :: 0 <= i < |chunks| ==> Splittable(chunks[i])
    ensures SplitLines(Lines(FileText(chunks))) == SplitOf(chunks)
  {
    if chunks != [] {
      var rest := FileText(chunks[1..]);
      SplitChunks(chunks[1..]);
      assert Splittable(chunks[0]);
      match chunks[0]
      case Items(text) =>
        LinesConcat(text, rest);
        SplitItems(Lines(text), Lines(rest));
      case Submodule(name, body) =>
        LinesOfModule(name, body);
        LinesConcat(ModuleText(name, body), rest);
        SplitSubmodule(name, body, Lines(rest));
    }
  }

  function RootOf(chunks: seq<Chunk>): Text {
    if chunks == [] then []
    else (if chunks[0].Items? then chunks[0].text else []) + RootOf(chunks[1..])
  }

  function ModulesOf(chunks: seq<Chunk>): seq<Module> {
    if chunks == [] then []
    else (if chunks[0].Submodule? then [Module(chunks[0].name, chunks[0].body)] else []) + ModulesOf(chunks[1..])
  }

  ghost predicate Unreturned(chunk: Chunk) {
    !HasReturnAtLineEnd(if chunk.Items? then chunk.text else chunk.body)
  }

  lemma {:induction false} UnreturnedPartsAreWhole(chunks: seq<Chunk>)
    requires forall i :: 0 <= i < |chunks| ==> Splittable(chunks[i]) && Unreturned(chunks[i])
    ensures SplitOf(chunks) == Split(RootOf(chunks), ModulesOf(chunks))
  {
    if chunks != [] {
      assert Splittable(chunks[0]) && Unreturned(chunks[0]);
      NormalisedExactlyWhen(if chunks[0].Items? then chunks[0].text else chunks[0].body);
      UnreturnedPartsAreWhole(chunks[1..]);
    }
  }

  /** Splitting a rendered file gives back its root items, and every module's name and body, byte for byte. */
  lemma SplittingUndoesRendering(chunks: seq<Chunk>)
    requires forall i :: 0 <= i < |chunks| ==> Splittable(chunks[i]) && Unreturned(chunks[i])
    ensures SplitLines(Lines(FileText(chunks))) == Split(RootOf(chunks), ModulesOf(chunks))
  {
    SplitChunks(chunks);
    UnreturnedPartsAreWhole(chunks);
  }
}
