/** The wire format of the fact tables: every column a count and its values, little-endian. */
module Wire {
  import opened Basics
  import opened Facts
  import opened WireTables

  // The ASCII bytes of ZAGFACT and a zero.
  const MAGIC: seq<u8> := [90, 65, 71, 70, 65, 67, 84, 0]
  const VERSION: u32 := 2

  datatype DecodeError =
    | BadMagic
    | UnsupportedVersion(version: u32)
    | Truncated(offset: nat)
    | TrailingBytes(offset: nat)
    | UnknownEnumValue(column: string, value: u32)

  // ---- Words ------------------------------------------------------------------------------------

  /** The number four bytes make, the lowest first. */
  function FromLe(raw: seq<u8>): u32
    requires |raw| == 4
  {
    var first: int, second: int, third: int, fourth: int := raw[0], raw[1], raw[2], raw[3];
    first + 256 * second + 65536 * third + 16777216 * fourth
  }

  function LeBytes(value: u32): (r: seq<u8>) {
    [value % 256, value / 256 % 256, value / 65536 % 256, value / 16777216]
  }

  lemma LeBytesMake(value: u32)
    ensures |LeBytes(value)| == 4 && FromLe(LeBytes(value)) == value
  {
    assert value == value / 256 * 256 + value % 256;
    assert value / 256 == value / 65536 * 256 + value / 256 % 256;
    assert value / 65536 == value / 16777216 * 256 + value / 65536 % 256;
  }

  lemma FromLeIsInjective(a: seq<u8>, b: seq<u8>)
    requires |a| == |b| == 4 && FromLe(a) == FromLe(b)
    ensures a == b
  {
    var first: int, second: int, third: int, fourth: int := a[0], a[1], a[2], a[3];
    var first': int, second': int, third': int, fourth': int := b[0], b[1], b[2], b[3];
    assert first - first' == 256 * ((second' - second) + 256 * (third' - third) + 65536 * (fourth' - fourth));
    assert first == first';
    assert second - second' == 256 * ((third' - third) + 256 * (fourth' - fourth));
    assert second == second';
    assert third - third' == 256 * (fourth' - fourth);
    assert third == third';
  }

  /** The four bytes that make a number. */
  ghost function Le(value: u32): (r: seq<u8>)
    ensures |r| == 4 && FromLe(r) == value
  {
    LeBytesMake(value);
    var raw :| |raw| == 4 && FromLe(raw) == value;
    raw
  }

  lemma LeIsLeBytes(value: u32)
    ensures Le(value) == LeBytes(value)
  {
    LeBytesMake(value);
    FromLeIsInjective(Le(value), LeBytes(value));
  }

  /** `part` sits in `bytes` at `cursor`. */
  predicate At(bytes: seq<u8>, cursor: nat, part: seq<u8>) {
    cursor + |part| <= |bytes| && bytes[cursor..cursor + |part|] == part
  }

  lemma AtSplits(bytes: seq<u8>, cursor: nat, first: seq<u8>, second: seq<u8>)
    ensures At(bytes, cursor, first + second) <==> At(bytes, cursor, first) && At(bytes, cursor + |first|, second)
  {
    if cursor + |first| + |second| <= |bytes| {
      var whole := bytes[cursor..cursor + |first| + |second|];
      assert whole[..|first|] == bytes[cursor..cursor + |first|];
      assert whole[|first|..] == bytes[cursor + |first|..cursor + |first| + |second|];
      assert whole == whole[..|first|] + whole[|first|..];
    }
  }

  /** A value read, and where the reading stopped. */
  datatype Parsed<+T> = Parsed(value: T, cursor: nat)

  function WordAt(bytes: seq<u8>, cursor: nat): (r: Result<Parsed<u32>, DecodeError>)
    ensures r.Ok? ==> r.value.cursor == cursor + 4 <= |bytes|
  {
    if cursor + 4 > |bytes| then Err(Truncated(cursor))
    else Ok(Parsed(FromLe(bytes[cursor..cursor + 4]), cursor + 4))
  }

  lemma WordRoundTrip(bytes: seq<u8>, cursor: nat, word: u32)
    ensures At(bytes, cursor, Le(word)) <==> WordAt(bytes, cursor) == Ok(Parsed(word, cursor + 4))
  {
    if cursor + 4 <= |bytes| && FromLe(bytes[cursor..cursor + 4]) == word {
      FromLeIsInjective(bytes[cursor..cursor + 4], Le(word));
    }
  }

  ghost function EncodeWords(words: seq<u32>): (r: seq<u8>)
    ensures |r| == 4 * |words|
  {
    if words == [] then [] else EncodeWords(words[..|words| - 1]) + Le(words[|words| - 1])
  }

  function WordsAt(bytes: seq<u8>, cursor: nat, count: nat): (r: seq<u32>)
    requires cursor + 4 * count <= |bytes|
    ensures |r| == count
  {
    if count == 0 then []
    else
      var last := cursor + 4 * (count - 1);
      WordsAt(bytes, cursor, count - 1) + [FromLe(bytes[last..last + 4])]
  }

  lemma {:induction false} WordsRoundTrip(bytes: seq<u8>, cursor: nat, words: seq<u32>)
    requires At(bytes, cursor, EncodeWords(words))
    ensures WordsAt(bytes, cursor, |words|) == words
  {
    if words != [] {
      var fewer, last := words[..|words| - 1], words[|words| - 1];
      AtSplits(bytes, cursor, EncodeWords(fewer), Le(last));
      WordsRoundTrip(bytes, cursor, fewer);
    }
  }

  lemma {:induction false} WordsBackAgain(bytes: seq<u8>, cursor: nat, count: nat)
    requires cursor + 4 * count <= |bytes|
    ensures At(bytes, cursor, EncodeWords(WordsAt(bytes, cursor, count)))
  {
    if count > 0 {
      WordsBackAgain(bytes, cursor, count - 1);
      var words, fewer := WordsAt(bytes, cursor, count), WordsAt(bytes, cursor, count - 1);
      assert words[..count - 1] == fewer;
      FromLeIsInjective(bytes[cursor + 4 * (count - 1)..cursor + 4 * count], Le(words[count - 1]));
      AtSplits(bytes, cursor, EncodeWords(fewer), Le(words[count - 1]));
    }
  }

  // ---- Columns ----------------------------------------------------------------------------------

  ghost function Payload(column: Column): seq<u8> {
    match column
    case Bytes(bytes) => bytes
    case Words(words) => EncodeWords(words)
  }

  /** The count is written as a `u32`, so a column too long for one loses the high part of its length. */
  ghost function EncodeColumn(column: Column): seq<u8> {
    Le(AsU32(ColumnLength(column))) + Payload(column)
  }

  /** The first word of an enumeration column that no value has. */
  function FirstUnknown(words: seq<u32>, limit: nat): (r: Option<u32>)
    ensures r.None? <==> forall i :: 0 <= i < |words| ==> words[i] < limit
    ensures r.Some? ==> exists i :: && 0 <= i < |words| && words[i] == r.value && r.value >= limit
                                    && forall j :: 0 <= j < i ==> words[j] < limit
  {
    if words == [] then None
    else if words[0] >= limit then Some(words[0])
    else FirstUnknown(words[1..], limit)
  }

  /** How many bytes `count` values take. */
  function Size(kind: ColumnKind, count: nat): nat {
    if kind.ByteColumn? then count else 4 * count
  }

  /** The column that `count` values at `start` make. */
  function PayloadAt(kind: ColumnKind, bytes: seq<u8>, start: nat, count: u32): (r: Result<Column, DecodeError>)
    requires start + Size(kind, count) <= |bytes|
    ensures r.Ok? ==> MatchesColumn(kind, r.value) && ColumnLength(r.value) == count
  {
    match kind
    case ByteColumn => Ok(Bytes(bytes[start..start + count]))
    case WordColumn => Ok(Words(WordsAt(bytes, start, count)))
    case EnumColumn(name, limit) =>
      var words := WordsAt(bytes, start, count);
      match FirstUnknown(words, limit)
      case Some(value) => Err(UnknownEnumValue(name, value))
      case None => Ok(Words(words))
  }

  function ColumnAt(kind: ColumnKind, bytes: seq<u8>, cursor: nat): (r: Result<Parsed<Column>, DecodeError>)
    ensures r.Ok? ==> MatchesColumn(kind, r.value.value)
  {
    match WordAt(bytes, cursor)
    case Err(error) => Err(error)
    case Ok(Parsed(count, start)) =>
      var end := start + Size(kind, count);
      if end > |bytes| then Err(Truncated(start))
      else
        match PayloadAt(kind, bytes, start, count)
        case Err(error) => Err(error)
        case Ok(column) => Ok(Parsed(column, end))
  }

  lemma PayloadRoundTrip(kind: ColumnKind, bytes: seq<u8>, start: nat, column: Column)
    requires MatchesColumn(kind, column) && At(bytes, start, Payload(column))
    ensures |Payload(column)| == Size(kind, ColumnLength(column))
    ensures PayloadAt(kind, bytes, start, ColumnLength(column)) == Ok(column)
  {
    if column.Words? {
      WordsRoundTrip(bytes, start, column.words);
    }
  }

  lemma PayloadBackAgain(kind: ColumnKind, bytes: seq<u8>, start: nat, count: u32)
    requires start + Size(kind, count) <= |bytes| && PayloadAt(kind, bytes, start, count).Ok?
    ensures At(bytes, start, Payload(PayloadAt(kind, bytes, start, count).value))
    ensures |Payload(PayloadAt(kind, bytes, start, count).value)| == Size(kind, count)
  {
    if !kind.ByteColumn? {
      WordsBackAgain(bytes, start, count);
    }
  }

  lemma ColumnRoundTrip(kind: ColumnKind, bytes: seq<u8>, cursor: nat, column: Column)
    requires MatchesColumn(kind, column) && At(bytes, cursor, EncodeColumn(column))
    ensures ColumnAt(kind, bytes, cursor) == Ok(Parsed(column, cursor + |EncodeColumn(column)|))
  {
    AtSplits(bytes, cursor, Le(ColumnLength(column)), Payload(column));
    WordRoundTrip(bytes, cursor, ColumnLength(column));
    PayloadRoundTrip(kind, bytes, cursor + 4, column);
  }

  lemma ColumnBackAgain(kind: ColumnKind, bytes: seq<u8>, cursor: nat)
    requires ColumnAt(kind, bytes, cursor).Ok?
    ensures var parsed := ColumnAt(kind, bytes, cursor).value;
            At(bytes, cursor, EncodeColumn(parsed.value))
            && parsed.cursor == cursor + |EncodeColumn(parsed.value)|
  {
    var count := WordAt(bytes, cursor).value.value;
    WordRoundTrip(bytes, cursor, count);
    PayloadBackAgain(kind, bytes, cursor + 4, count);
    var column := PayloadAt(kind, bytes, cursor + 4, count).value;
    AtSplits(bytes, cursor, Le(count), Payload(column));
    assert EncodeColumn(column) == Le(count) + Payload(column);
  }

  lemma PayloadLength(kind: ColumnKind, column: Column)
    requires MatchesColumn(kind, column)
    ensures |Payload(column)| == Size(kind, ColumnLength(column))
  {
  }

  /** A column cut short reads as truncated. */
  lemma ColumnCutShort(kind: ColumnKind, bytes: seq<u8>, cut: nat, cursor: nat, column: Column)
    requires MatchesColumn(kind, column) && At(bytes, cursor, EncodeColumn(column))
    requires cursor <= cut < cursor + |EncodeColumn(column)|
    ensures ColumnAt(kind, bytes[..cut], cursor).Err? && ColumnAt(kind, bytes[..cut], cursor).error.Truncated?
  {
    PayloadLength(kind, column);
    if cursor + 4 <= cut {
      AtSplits(bytes, cursor, Le(ColumnLength(column)), Payload(column));
      WordRoundTrip(bytes, cursor, ColumnLength(column));
      assert bytes[..cut][cursor..cursor + 4] == bytes[cursor..cursor + 4];
    }
  }

  // ---- Runs --------------------------------------------------------------------------------------

  // The same argument serves a run of columns and a run of tables, so it is made once, over any
  // way of writing a value (`encode`), of reading one (`read`), and of saying which are readable (`ok`).

  type Reader<!K, +V> = (K, seq<u8>, nat) -> Result<Parsed<V>, DecodeError>

  ghost function EncodeRun<V>(encode: V -> seq<u8>, values: seq<V>): seq<u8> {
    if values == [] then [] else EncodeRun(encode, values[..|values| - 1]) + encode(values[|values| - 1])
  }

  /** What reading one more value after a run gives; the first error stays. */
  function Then<K, V>(run: Result<Parsed<seq<V>>, DecodeError>, read: Reader<K, V>, kind: K, bytes: seq<u8>)
    : Result<Parsed<seq<V>>, DecodeError>
  {
    match run
    case Err(error) => Err(error)
    case Ok(Parsed(values, next)) =>
      match read(kind, bytes, next)
      case Err(error) => Err(error)
      case Ok(Parsed(value, end)) => Ok(Parsed(values + [value], end))
  }

  function RunAt<K, V>(read: Reader<K, V>, kinds: seq<K>, bytes: seq<u8>, cursor: nat)
    : Result<Parsed<seq<V>>, DecodeError>
  {
    if kinds == [] then Ok(Parsed([], cursor))
    else Then(RunAt(read, kinds[..|kinds| - 1], bytes, cursor), read, kinds[|kinds| - 1], bytes)
  }

  ghost predicate AllOk<K, V>(ok: (K, V) -> bool, kinds: seq<K>, values: seq<V>) {
    |kinds| == |values| && forall i :: 0 <= i < |values| ==> ok(kinds[i], values[i])
  }

  ghost predicate ReadsBack<K, V>(
    read: Reader<K, V>, encode: V -> seq<u8>, kind: K, value: V, bytes: seq<u8>, cursor: nat)
  {
    read(kind, bytes, cursor) == Ok(Parsed(value, cursor + |encode(value)|))
  }

  ghost predicate RoundTrips<K(!new), V(!new)>(read: Reader<K, V>, encode: V -> seq<u8>, ok: (K, V) -> bool) {
    forall kind: K, value: V, bytes: seq<u8>, cursor: nat ::
      ok(kind, value) && At(bytes, cursor, encode(value)) ==> ReadsBack(read, encode, kind, value, bytes, cursor)
  }

  ghost predicate ReadsAre<K, V>(
    read: Result<Parsed<V>, DecodeError>, encode: V -> seq<u8>, ok: (K, V) -> bool, kind: K, bytes: seq<u8>,
      cursor: nat)
  {
    read.Ok? ==>
      && ok(kind, read.value.value)
      && At(bytes, cursor, encode(read.value.value))
      && read.value.cursor == cursor + |encode(read.value.value)|
  }

  ghost predicate GoesBack<K(!new), V>(read: Reader<K, V>, encode: V -> seq<u8>, ok: (K, V) -> bool) {
    forall kind: K, bytes: seq<u8>, cursor: nat :: cursor <= |bytes| ==>
      ReadsAre(read(kind, bytes, cursor), encode, ok, kind, bytes, cursor)
  }

  ghost predicate IsTruncated<V>(read: Result<V, DecodeError>) {
    read.Err? && read.error.Truncated?
  }

  ghost predicate CutsShort<K(!new), V(!new)>(read: Reader<K, V>, encode: V -> seq<u8>, ok: (K, V) -> bool) {
    forall kind: K, value: V, bytes: seq<u8>, cut: nat, cursor: nat ::
      ok(kind, value) && At(bytes, cursor, encode(value)) && cursor <= cut < cursor + |encode(value)| ==>
        IsTruncated(read(kind, bytes[..cut], cursor))
  }

  lemma {:induction false} RunRoundTrip<K(!new), V(!new)>(
    read: Reader<K, V>, encode: V -> seq<u8>, ok: (K, V) -> bool,
    kinds: seq<K>, values: seq<V>, bytes: seq<u8>, cursor: nat)
    requires RoundTrips(read, encode, ok)
    requires AllOk(ok, kinds, values) && At(bytes, cursor, EncodeRun(encode, values))
    ensures RunAt(read, kinds, bytes, cursor) == Ok(Parsed(values, cursor + |EncodeRun(encode, values)|))
  {
    if values != [] {
      var fewer, last := values[..|values| - 1], values[|values| - 1];
      AtSplits(bytes, cursor, EncodeRun(encode, fewer), encode(last));
      RunRoundTrip(read, encode, ok, kinds[..|kinds| - 1], fewer, bytes, cursor);
      assert ReadsBack(read, encode, kinds[|kinds| - 1], last, bytes, cursor + |EncodeRun(encode, fewer)|);
      assert fewer + [last] == values;
    }
  }

  lemma {:induction false} RunGoesBack<K(!new), V(!new)>(
    read: Reader<K, V>, encode: V -> seq<u8>, ok: (K, V) -> bool, kinds: seq<K>, bytes: seq<u8>, cursor: nat)
    requires GoesBack(read, encode, ok) && cursor <= |bytes|
    requires RunAt(read, kinds, bytes, cursor).Ok?
    ensures var parsed := RunAt(read, kinds, bytes, cursor).value;
            && AllOk(ok, kinds, parsed.value)
            && At(bytes, cursor, EncodeRun(encode, parsed.value))
            && parsed.cursor == cursor + |EncodeRun(encode, parsed.value)|
  {
    if kinds != [] {
      var kind := kinds[|kinds| - 1];
      RunGoesBack(read, encode, ok, kinds[..|kinds| - 1], bytes, cursor);
      var before := RunAt(read, kinds[..|kinds| - 1], bytes, cursor).value;
      assert ReadsAre(read(kind, bytes, before.cursor), encode, ok, kind, bytes, before.cursor);
      var last := read(kind, bytes, before.cursor).value.value;
      assert (before.value + [last])[..|before.value|] == before.value;
      AtSplits(bytes, cursor, EncodeRun(encode, before.value), encode(last));
    }
  }

  lemma AtInPrefix(bytes: seq<u8>, cut: nat, cursor: nat, part: seq<u8>)
    requires At(bytes, cursor, part) && cursor + |part| <= cut <= |bytes|
    ensures At(bytes[..cut], cursor, part)
  {
  }

  lemma {:induction false} RunCutShort<K(!new), V(!new)>(
    read: Reader<K, V>, encode: V -> seq<u8>, ok: (K, V) -> bool,
    kinds: seq<K>, values: seq<V>, bytes: seq<u8>, cut: nat, cursor: nat)
    requires RoundTrips(read, encode, ok) && CutsShort(read, encode, ok)
    requires AllOk(ok, kinds, values) && At(bytes, cursor, EncodeRun(encode, values))
    requires cursor <= cut < cursor + |EncodeRun(encode, values)|
    ensures IsTruncated(RunAt(read, kinds, bytes[..cut], cursor))
  {
    if values != [] {
      var fewer, last := values[..|values| - 1], values[|values| - 1];
      var kind := kinds[|kinds| - 1];
      var middle := cursor + |EncodeRun(encode, fewer)|;
      AtSplits(bytes, cursor, EncodeRun(encode, fewer), encode(last));
      if cut < middle {
        RunCutShort(read, encode, ok, kinds[..|kinds| - 1], fewer, bytes, cut, cursor);
      } else {
        AtInPrefix(bytes, cut, cursor, EncodeRun(encode, fewer));
        RunRoundTrip(read, encode, ok, kinds[..|kinds| - 1], fewer, bytes[..cut], cursor);
        assert ok(kind, last) && At(bytes, middle, encode(last));
        assert IsTruncated(read(kind, bytes[..cut], middle));
      }
    }
  }

  // ---- A file is a run of columns after a header ---------------------------------------------------

  ghost function EncodeColumns(columns: seq<Column>): seq<u8> {
    EncodeRun(EncodeColumn, columns)
  }

  function ColumnsAt(kinds: seq<ColumnKind>, bytes: seq<u8>, cursor: nat): Result<Parsed<seq<Column>>, DecodeError> {
    RunAt(ColumnAt, kinds, bytes, cursor)
  }

  lemma ColumnReadsBack(kind: ColumnKind, bytes: seq<u8>, cursor: nat, column: Column)
    requires MatchesColumn(kind, column) && At(bytes, cursor, EncodeColumn(column))
    ensures ReadsBack(ColumnAt, EncodeColumn, kind, column, bytes, cursor)
  {
    ColumnRoundTrip(kind, bytes, cursor, column);
  }

  lemma ColumnRoundTrips()
    ensures RoundTrips(ColumnAt, EncodeColumn, MatchesColumn)
  {
    var read: Reader<ColumnKind, Column>, encode, ok := ColumnAt, EncodeColumn, MatchesColumn;
    forall kind, column, bytes, cursor: nat | ok(kind, column) && At(bytes, cursor, encode(column))
      ensures ReadsBack(read, encode, kind, column, bytes, cursor)
    {
      ColumnReadsBack(kind, bytes, cursor, column);
    }
  }

  lemma ColumnGoesBack()
    ensures GoesBack(ColumnAt, EncodeColumn, MatchesColumn)
  {
    var read: Reader<ColumnKind, Column>, encode, ok := ColumnAt, EncodeColumn, MatchesColumn;
    forall kind, bytes, cursor: nat | cursor <= |bytes|
      ensures ReadsAre(read(kind, bytes, cursor), encode, ok, kind, bytes, cursor)
    {
      if ColumnAt(kind, bytes, cursor).Ok? {
        ColumnBackAgain(kind, bytes, cursor);
      }
    }
  }

  lemma ColumnCutsShort()
    ensures CutsShort(ColumnAt, EncodeColumn, MatchesColumn)
  {
    var read: Reader<ColumnKind, Column>, encode, ok := ColumnAt, EncodeColumn, MatchesColumn;
    forall kind, column, bytes, cut: nat, cursor: nat |
      ok(kind, column) && At(bytes, cursor, encode(column)) && cursor <= cut < cursor + |encode(column)|
      ensures IsTruncated(read(kind, bytes[..cut], cursor))
    {
      ColumnCutShort(kind, bytes, cut, cursor, column);
    }
  }

  lemma MatchesIsAllOk(kinds: seq<ColumnKind>, columns: seq<Column>)
    ensures Matches(kinds, columns) <==> AllOk(MatchesColumn, kinds, columns)
  {
  }

  // ---- The whole file -----------------------------------------------------------------------------

  ghost function Header(target: StringId): (r: seq<u8>)
    ensures |r| == 16
  {
    MAGIC + Le(VERSION) + Le(target)
  }

  /** The magic, the version and the target, which is what comes back. */
  function HeaderAt(bytes: seq<u8>): (r: Result<Parsed<StringId>, DecodeError>)
    ensures r.Ok? ==> r.value.cursor == 16 <= |bytes|
  {
    if |bytes| < |MAGIC| || bytes[..|MAGIC|] != MAGIC then Err(BadMagic)
    else
      match WordAt(bytes, |MAGIC|)
      case Err(error) => Err(error)
      case Ok(Parsed(version, next)) =>
        if version != VERSION then Err(UnsupportedVersion(version)) else WordAt(bytes, next)
  }

  lemma HeaderRoundTrip(bytes: seq<u8>, target: StringId)
    ensures At(bytes, 0, Header(target)) <==> HeaderAt(bytes) == Ok(Parsed(target, 16))
  {
    AtSplits(bytes, 0, MAGIC + Le(VERSION), Le(target));
    AtSplits(bytes, 0, MAGIC, Le(VERSION));
    WordRoundTrip(bytes, 8, VERSION);
    WordRoundTrip(bytes, 12, target);
  }

  lemma HeaderCutShort(bytes: seq<u8>, cut: nat, target: StringId)
    requires At(bytes, 0, Header(target)) && |MAGIC| <= cut < 16
    ensures IsTruncated(HeaderAt(bytes[..cut]))
  {
    AtSplits(bytes, 0, MAGIC + Le(VERSION), Le(target));
    AtSplits(bytes, 0, MAGIC, Le(VERSION));
    WordRoundTrip(bytes, 8, VERSION);
    assert bytes[..cut][..|MAGIC|] == bytes[0..|MAGIC|];
    if cut >= 12 {
      assert bytes[..cut][8..12] == bytes[8..12];
    }
  }

  datatype File = File(target: StringId, columns: seq<Column>)

  ghost function EncodeFile(file: File): seq<u8> {
    Header(file.target) + EncodeColumns(file.columns)
  }

  /** A file read to its last byte. */
  function FileIn(kinds: seq<ColumnKind>, bytes: seq<u8>): Result<File, DecodeError> {
    match HeaderAt(bytes)
    case Err(error) => Err(error)
    case Ok(Parsed(target, start)) =>
      match ColumnsAt(kinds, bytes, start)
      case Err(error) => Err(error)
      case Ok(Parsed(columns, end)) => if end != |bytes| then Err(TrailingBytes(end)) else Ok(File(target, columns))
  }

  lemma FileRoundTrip(kinds: seq<ColumnKind>, file: File, extra: seq<u8>)
    requires Matches(kinds, file.columns)
    ensures FileIn(kinds, EncodeFile(file) + extra)
         == if extra == [] then Ok(file) else Err(TrailingBytes(|EncodeFile(file)|))
  {
    var bytes := EncodeFile(file) + extra;
    assert bytes[0..|EncodeFile(file)|] == EncodeFile(file);
    AtSplits(bytes, 0, Header(file.target), EncodeColumns(file.columns));
    HeaderRoundTrip(bytes, file.target);
    ColumnRoundTrips();
    MatchesIsAllOk(kinds, file.columns);
    RunRoundTrip(ColumnAt, EncodeColumn, MatchesColumn, kinds, file.columns, bytes, 16);
  }

  lemma FileGoesBack(kinds: seq<ColumnKind>, bytes: seq<u8>)
    requires FileIn(kinds, bytes).Ok?
    ensures Matches(kinds, FileIn(kinds, bytes).value.columns)
    ensures EncodeFile(FileIn(kinds, bytes).value) == bytes
  {
    var file := FileIn(kinds, bytes).value;
    ColumnGoesBack();
    RunGoesBack(ColumnAt, EncodeColumn, MatchesColumn, kinds, bytes, 16);
    MatchesIsAllOk(kinds, file.columns);
    HeaderRoundTrip(bytes, file.target);
    AtSplits(bytes, 0, Header(file.target), EncodeColumns(file.columns));
    assert bytes[0..|bytes|] == bytes;
  }

  lemma FileCutShort(kinds: seq<ColumnKind>, file: File, cut: nat)
    requires Matches(kinds, file.columns) && |MAGIC| <= cut < |EncodeFile(file)|
    ensures IsTruncated(FileIn(kinds, EncodeFile(file)[..cut]))
  {
    var bytes := EncodeFile(file);
    assert bytes[0..|bytes|] == bytes;
    AtSplits(bytes, 0, Header(file.target), EncodeColumns(file.columns));
    if cut < 16 {
      HeaderCutShort(bytes, cut, file.target);
    } else {
      AtInPrefix(bytes, cut, 0, Header(file.target));
      HeaderRoundTrip(bytes[..cut], file.target);
      ColumnRoundTrips();
      ColumnCutsShort();
      MatchesIsAllOk(kinds, file.columns);
      RunCutShort(ColumnAt, EncodeColumn, MatchesColumn, kinds, file.columns, bytes, cut, 16);
    }
  }

  ghost function Encoding(tables: Tables): seq<u8> {
    EncodeFile(File(tables.target, Flat(GroupsOf(tables))))
  }

  ghost function Decoding(bytes: seq<u8>): Result<Tables, DecodeError> {
    match FileIn(Flat(SCHEMAS), bytes)
    case Err(error) => Err(error)
    case Ok(file) =>
      FileGoesBack(Flat(SCHEMAS), bytes);
      CutMatches(SCHEMAS, file.columns);
      Ok(TablesFrom(file.target, Cut(SCHEMAS, file.columns)))
  }

  /** An encoding followed by nothing decodes to its tables; followed by anything, to where it ended. */
  lemma DecodingAfterEncoding(tables: Tables, extra: seq<u8>)
    requires Encodable(tables)
    ensures Decoding(Encoding(tables) + extra)
         == if extra == [] then Ok(tables) else Err(TrailingBytes(|Encoding(tables)|))
  {
    var groups := GroupsOf(tables);
    GroupsMatch(tables);
    FlatMatches(SCHEMAS, groups);
    TablesRoundTrip(tables);
    FileRoundTrip(Flat(SCHEMAS), File(tables.target, Flat(groups)), extra);
  }

  /** Decoding undoes encoding. */
  lemma DecodeEncode(tables: Tables)
    requires Encodable(tables)
    ensures Decoding(Encoding(tables)) == Ok(tables)
  {
    DecodingAfterEncoding(tables, []);
    assert Encoding(tables) + [] == Encoding(tables);
  }

  /** Only an encoding decodes: there is one file for every set of tables. */
  lemma EncodeDecode(bytes: seq<u8>)
    requires Decoding(bytes).Ok?
    ensures Encodable(Decoding(bytes).value) && Encoding(Decoding(bytes).value) == bytes
  {
    FileGoesBack(Flat(SCHEMAS), bytes);
    var file := FileIn(Flat(SCHEMAS), bytes).value;
    var groups := Cut(SCHEMAS, file.columns);
    CutMatches(SCHEMAS, file.columns);
    TablesBackAgain(file.target, groups);
    MatchedIsEncodable(TablesFrom(file.target, groups));
  }

  /** An encoding cut short anywhere after its magic says so. */
  lemma CutShort(tables: Tables, cut: nat)
    requires Encodable(tables) && |MAGIC| <= cut < |Encoding(tables)|
    ensures IsTruncated(Decoding(Encoding(tables)[..cut]))
  {
    GroupsMatch(tables);
    FlatMatches(SCHEMAS, GroupsOf(tables));
    FileCutShort(Flat(SCHEMAS), File(tables.target, Flat(GroupsOf(tables))), cut);
  }

  // ---- Writing and reading ------------------------------------------------------------------------

  /** The bytes written so far. */
  class Writer {
    var out: seq<u8>

    constructor ()
      ensures out == []
    {
      out := [];
    }

    method WriteWord(value: u32)
      modifies this
      ensures out == old(out) + Le(value)
    {
      LeIsLeBytes(value);
      out := out + LeBytes(value);
    }

    method WriteColumn(column: Column)
      modifies this
      ensures out == old(out) + EncodeColumn(column)
    {
      WriteWord(AsU32(ColumnLength(column)));
      ghost var before := out;
      match column
      case Bytes(bytes) =>
        out := out + bytes;
      case Words(words) =>
        for i := 0 to |words|
          invariant out == before + EncodeWords(words[..i])
        {
          assert words[..i + 1][..i] == words[..i];
          WriteWord(words[i]);
        }
        assert words[..|words|] == words;
    }

    method WriteColumns(columns: seq<Column>)
      modifies this
      ensures out == old(out) + EncodeColumns(columns)
    {
      for i := 0 to |columns|
        invariant out == old(out) + EncodeColumns(columns[..i])
      {
        assert columns[..i + 1][..i] == columns[..i];
        WriteColumn(columns[i]);
      }
      assert columns[..|columns|] == columns;
    }
  }

  method Encode(tables: Tables) returns (bytes: seq<u8>)
    ensures bytes == Encoding(tables)
  {
    var writer := new Writer();
    writer.out := MAGIC;
    writer.WriteWord(VERSION);
    writer.WriteWord(tables.target);
    writer.WriteColumns(Flat(GroupsOf(tables)));
    bytes := writer.out;
  }

  /** What was read is what the bytes at the cursor say, and the cursor is past it. */
  ghost predicate Follows<T>(expected: Result<Parsed<T>, DecodeError>, read: Result<T, DecodeError>, cursor: nat) {
    match expected
    case Err(error) => read == Err(error)
    case Ok(Parsed(value, next)) => read == Ok(value) && cursor == next
  }

  lemma {:induction false} FirstErrorStays<K, V>(
    read: Reader<K, V>, kinds: seq<K>, i: nat, bytes: seq<u8>, cursor: nat)
    requires i <= |kinds| && RunAt(read, kinds[..i], bytes, cursor).Err?
    ensures RunAt(read, kinds, bytes, cursor) == RunAt(read, kinds[..i], bytes, cursor)
    decreases |kinds| - i
  {
    if i == |kinds| {
      assert kinds[..i] == kinds;
    } else {
      assert kinds[..i + 1][..i] == kinds[..i];
      FirstErrorStays(read, kinds, i + 1, bytes, cursor);
    }
  }

  /** A cursor over bytes. */
  class ByteReader {
    const bytes: seq<u8>
    var cursor: nat

    constructor (bytes: seq<u8>, cursor: nat)
      ensures this.bytes == bytes && this.cursor == cursor
    {
      this.bytes := bytes;
      this.cursor := cursor;
    }

    method ReadWord() returns (read: Result<u32, DecodeError>)
      modifies this
      ensures Follows(WordAt(bytes, old(cursor)), read, cursor)
    {
      var start := cursor;
      var end := start + 4;
      if end > |bytes| {
        return Err(Truncated(start));
      }
      cursor := end;
      read := Ok(FromLe(bytes[start..end]));
    }

    method ReadWords(count: nat) returns (words: seq<u32>)
      requires cursor + 4 * count <= |bytes|
      modifies this
      ensures words == WordsAt(bytes, old(cursor), count) && cursor == old(cursor) + 4 * count
    {
      var start := cursor;
      words := [];
      for index := 0 to count
        invariant cursor == start
        invariant words == WordsAt(bytes, start, index)
      {
        var at := start + index * 4;
        words := words + [FromLe(bytes[at..at + 4])];
      }
      cursor := start + 4 * count;
    }

    method ReadColumn(kind: ColumnKind) returns (read: Result<Column, DecodeError>)
      modifies this
      ensures Follows(ColumnAt(kind, bytes, old(cursor)), read, cursor)
    {
      var counted := ReadWord();
      if counted.Err? {
        return Err(counted.error);
      }
      var start := cursor;
      if start + Size(kind, counted.value) > |bytes| {
        return Err(Truncated(start));
      }
      match kind
      case ByteColumn =>
        cursor := start + counted.value;
        return Ok(Bytes(bytes[start..cursor]));
      case WordColumn =>
        var words := ReadWords(counted.value);
        return Ok(Words(words));
      case EnumColumn(name, limit) =>
        var words := ReadWords(counted.value);
        var unknown := FirstUnknown(words, limit);
        if unknown.Some? {
          return Err(UnknownEnumValue(name, unknown.value));
        }
        return Ok(Words(words));
    }

    method ReadColumns(kinds: seq<ColumnKind>) returns (read: Result<seq<Column>, DecodeError>)
      modifies this
      ensures Follows(ColumnsAt(kinds, bytes, old(cursor)), read, cursor)
    {
      var columns: seq<Column> := [];
      for i := 0 to |kinds|
        invariant ColumnsAt(kinds[..i], bytes, old(cursor)) == Ok(Parsed(columns, cursor))
      {
        assert kinds[..i + 1][..i] == kinds[..i];
        var column := ReadColumn(kinds[i]);
        if column.Err? {
          FirstErrorStays(ColumnAt, kinds, i + 1, bytes, old(cursor));
          return Err(column.error);
        }
        columns := columns + [column.value];
      }
      assert kinds[..|kinds|] == kinds;
      read := Ok(columns);
    }
  }

  method ReadFile(kinds: seq<ColumnKind>, bytes: seq<u8>) returns (file: Result<File, DecodeError>)
    ensures file == FileIn(kinds, bytes)
  {
    if |bytes| < |MAGIC| || bytes[..|MAGIC|] != MAGIC {
      return Err(BadMagic);
    }
    var reader := new ByteReader(bytes, |MAGIC|);
    var version := reader.ReadWord();
    if version.Err? {
      return Err(version.error);
    }
    if version.value != VERSION {
      return Err(UnsupportedVersion(version.value));
    }
    var target := reader.ReadWord();
    if target.Err? {
      return Err(target.error);
    }
    var columns := reader.ReadColumns(kinds);
    if columns.Err? {
      return Err(columns.error);
    }
    if reader.cursor != |bytes| {
      return Err(TrailingBytes(reader.cursor));
    }
    file := Ok(File(target.value, columns.value));
  }

  method Decode(bytes: seq<u8>) returns (result: Result<Tables, DecodeError>)
    ensures result == Decoding(bytes)
  {
    var file := ReadFile(Flat(SCHEMAS), bytes);
    if file.Err? {
      return Err(file.error);
    }
    FileGoesBack(Flat(SCHEMAS), bytes);
    CutMatches(SCHEMAS, file.value.columns);
    result := Ok(TablesFrom(file.value.target, Cut(SCHEMAS, file.value.columns)));
  }
}
