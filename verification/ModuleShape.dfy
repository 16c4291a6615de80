/** What a rendered module looks like, line by line, and how any lines are split into modules. */
module ModuleShape {
  import opened Basics
  import opened Layout

  /** A line four spaces further in, unless there is nothing on it. */
  function ShiftedLine(raw: Text): Text {
    if raw == [10] then [10] else [32, 32, 32, 32] + raw
  }

  function Shifted(raws: seq<Text>): Text {
    if raws == [] then [] else ShiftedLine(raws[0]) + Shifted(raws[1..])
  }

  lemma {:induction false} ShiftedLast(raws: seq<Text>, last: Text)
    ensures Shifted(raws + [last]) == Shifted(raws) + ShiftedLine(last)
  {
    ShiftedNext(raws + [last]);
    if raws == [] {
      assert (raws + [last])[1..] == [];
    } else {
      assert (raws + [last])[1..] == raws[1..] + [last];
      ShiftedLast(raws[1..], last);
      ShiftedNext(raws);
      Regroup(ShiftedLine(raws[0]), Shifted(raws[1..]), ShiftedLine(last));
    }
  }

  lemma ShiftedNext(raws: seq<Text>)
    requires raws != []
    ensures Shifted(raws) == ShiftedLine(raws[0]) + Shifted(raws[1..])
  {
  }

  lemma LineIsShifted(raw: Text)
    ensures IndentedLine(raw) == ShiftedLine(raw)
  {
    assert Indent() == [32, 32, 32, 32];
  }

  lemma {:induction false} IndentedIsShifted(raws: seq<Text>)
    ensures Indented(raws) == Shifted(raws)
  {
    if raws != [] {
      var fewer, last := raws[..|raws| - 1], raws[|raws| - 1];
      IndentedIsShifted(fewer);
      LineIsShifted(last);
      ShiftedLast(fewer, last);
      assert fewer + [last] == raws;
      IndentedNext(raws);
    }
  }

  lemma IndentedNext(raws: seq<Text>)
    requires raws != []
    ensures Indented(raws) == Indented(raws[..|raws| - 1]) + IndentedLine(raws[|raws| - 1])
  {
  }

  /** A module is a line that opens it, its body four spaces further in, and a line with a brace. */
  lemma ModuleIs(name: Text, body: Text)
    ensures ModuleText(name, body)
         == Ascii("pub mod ") + name + Ascii(" {\n") + Shifted(RawLines(body)) + Ascii("}\n")
  {
    IndentedIsShifted(RawLines(body));
    assert Ended(Closing()) == Ascii("}\n");
    HeaderIs(name);
  }

  lemma HeaderIs(name: Text)
    ensures HeaderLine(name) == Ascii("pub mod ") + name + Ascii(" {\n")
  {
    assert Ended(Brace()) == Ascii(" {\n");
    Regroup(Opening() + name, Brace(), [NEWLINE]);
  }

  // ---- Splitting any lines ---------------------------------------------------------------------------

  /** The line opens a module of that name. */
  predicate Opens(line: Text, name: Text) {
    line == Ascii("pub mod ") + name + Ascii(" {")
  }

  lemma OpenedMeans(line: Text, name: Text)
    ensures ModuleOpened(line) == Some(name) <==> Opens(line, name)
  {
    var opening, brace := Opening(), Brace();
    if Opens(line, name) {
      assert line == opening + (name + brace);
      assert line[..|opening|] == opening && line[|opening|..] == name + brace;
      assert (name + brace)[|name|..] == brace && (name + brace)[..|name|] == name;
    }
    if ModuleOpened(line) == Some(name) {
      var rest := line[|opening|..];
      assert line == opening + rest && rest == rest[..|rest| - |brace|] + rest[|rest| - |brace|..];
      assert rest == name + brace;
      assert opening + (name + brace) == opening + name + brace;
    }
  }

  /** A line without the four spaces in front of it, where it has them. */
  function Unshifted(line: Text): Text {
    if |line| >= 4 && line[0] == line[1] == line[2] == line[3] == 32 then line[4..] else line
  }

  lemma UnindentedIs(line: Text)
    ensures Unindented(line) == Unshifted(line)
  {
    assert Indent() == [32, 32, 32, 32];
    if |line| >= 4 {
      assert line[..4] == [line[0], line[1], line[2], line[3]];
    }
  }

  /** The text of lines taken four spaces out, a newline after each. */
  function Taken(lines: seq<Text>): Text {
    if lines == [] then [] else Unshifted(lines[0]) + [10] + Taken(lines[1..])
  }

  lemma {:induction false} TakenLast(lines: seq<Text>, last: Text)
    ensures Taken(lines + [last]) == Taken(lines) + (Unshifted(last) + [10])
  {
    TakenNext(lines + [last]);
    if lines == [] {
      assert (lines + [last])[1..] == [];
    } else {
      assert (lines + [last])[1..] == lines[1..] + [last];
      TakenLast(lines[1..], last);
      TakenNext(lines);
      Regroup(Unshifted(lines[0]) + [10], Taken(lines[1..]), Unshifted(last) + [10]);
    }
  }

  lemma TakenNext(lines: seq<Text>)
    requires lines != []
    ensures Taken(lines) == Unshifted(lines[0]) + [10] + Taken(lines[1..])
  {
  }

  lemma {:induction false} UnindentedAllIsTaken(lines: seq<Text>)
    ensures UnindentedAll(lines) == Taken(lines)
  {
    if lines != [] {
      var fewer, last := lines[..|lines| - 1], lines[|lines| - 1];
      UnindentedAllIsTaken(fewer);
      UnindentedIs(last);
      TakenLast(fewer, last);
      assert fewer + [last] == lines;
    }
  }

  /** Lines before the first that is a brace and nothing else. */
  ghost predicate AreBeforeBrace(lines: seq<Text>, length: nat) {
    && length <= |lines| && (forall i :: 0 <= i < length ==> lines[i] != [125])
    && (length < |lines| ==> lines[length] == [125])
  }

  lemma {:induction false} BodyLengthIs(lines: seq<Text>)
    ensures AreBeforeBrace(lines, BodyLength(lines))
  {
    if lines != [] && lines[0] != Closing() {
      BodyLengthIs(lines[1..]);
      var length := BodyLength(lines[1..]);
      forall i | 0 <= i < length + 1
        ensures lines[i] != [125]
      {
        assert i > 0 ==> lines[i] == lines[1..][i - 1];
      }
    }
  }

  lemma OneBrace(lines: seq<Text>, one: nat, other: nat)
    requires AreBeforeBrace(lines, one) && AreBeforeBrace(lines, other)
    ensures one == other
  {
  }

  /** A line that opens no module belongs to the root. */
  lemma RootLine(lines: seq<Text>)
    requires lines != [] && forall name :: !Opens(lines[0], name)
    ensures SplitLines(lines)
         == Split(lines[0] + [10] + SplitLines(lines[1..]).root, SplitLines(lines[1..]).modules)
  {
    if ModuleOpened(lines[0]).Some? {
      OpenedMeans(lines[0], ModuleOpened(lines[0]).value);
    }
  }

  /** One that does takes the lines up to the first bare brace, or all there are, four spaces out. */
  lemma ModuleLine(lines: seq<Text>, name: Text, length: nat)
    requires lines != [] && Opens(lines[0], name) && AreBeforeBrace(lines[1..], length)
    ensures var rest := if length + 1 < |lines| then lines[length + 2..] else [];
            SplitLines(lines)
            == Split(SplitLines(rest).root, [Module(name, Taken(lines[1..length + 1]))] + SplitLines(rest).modules)
  {
    OpenedMeans(lines[0], name);
    BodyLengthIs(lines[1..]);
    OneBrace(lines[1..], length, BodyLength(lines[1..]));
    UnindentedAllIsTaken(lines[1..][..length]);
    assert lines[1..][..length] == lines[1..length + 1];
    assert length + 1 < |lines| ==> lines[1..][length + 1..] == lines[length + 2..];
  }
}
