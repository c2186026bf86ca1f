/** The RESP codec of the Redis client (internal/storage/redis/client.go).

    `ParseValue` is the reader's meaning as a function of the stream and a position in it. `Reader` is the
    stateful reader the client uses, proved against it. `Print` is an independent grammar of replies, and
    `EncodeCommand` is the client's own printer.
 */
module Resp {
  import opened Basics

  type Bytes = seq<byte>

  const CR: byte := 13
  const LF: byte := 10
  const PLUS: byte := 43
  const MINUS: byte := 45
  const COLON: byte := 58
  const DOLLAR: byte := 36
  const STAR: byte := 42
  const CRLF: Bytes := [CR, LF]

  const MAX_INT64: int := 0x7fff_ffff_ffff_ffff
  const MIN_INT64: int := -0x8000_0000_0000_0000

  /** A decoded reply. The two nil replies are separate because the reader keeps the kind byte. */
  datatype Value =
    | Simple(text: Bytes)
    | Integer(i: int)
    | Bulk(text: Bytes)
    | NilBulk
    | Array(items: seq<Value>)
    | NilArray

  /** One read: a value, a value together with the nil error, any other error, or a panic of the reader.
      `next` is the position of the first unread byte. */
  datatype Outcome =
    | Got(v: Value, next: nat)
    | Nil(v: Value, next: nat)
    | Fail(next: nat)
    | Panic
  {
    predicate HasValue() { Got? || Nil? }
  }

  datatype Items =
    | ItemsGot(vs: seq<Value>, next: nat)
    | ItemsFail(next: nat)
    | ItemsPanic

  // ---------------------------------------------------------------- numbers

  predicate IsDigit(b: byte) { 48 <= b <= 57 }

  predicate AllDigits(s: Bytes) { forall i :: 0 <= i < |s| ==> IsDigit(s[i]) }

  function DigitsValue(s: Bytes): nat
    requires AllDigits(s)
  {
    if s == [] then 0 else DigitsValue(s[..|s| - 1]) * 10 + (s[|s| - 1] - 48)
  }

  /** strconv.ParseInt(s, 10, 64), and strconv.Atoi on a 64-bit platform. */
  function ParseInt(s: Bytes): Option<int> {
    var negative := |s| > 0 && s[0] == MINUS;
    var digits := if |s| > 0 && (s[0] == MINUS || s[0] == PLUS) then s[1..] else s;
    if digits == [] || !AllDigits(digits) then None
    else
      var n: int := if negative then 0 - DigitsValue(digits) else DigitsValue(digits);
      if MIN_INT64 <= n <= MAX_INT64 then Some(n) else None
  }

  /** The `%d` verb on a non-negative integer. */
  function PrintNat(n: nat): (s: Bytes)
    ensures |s| > 0 && AllDigits(s)
  {
    if n < 10 then [48 + n] else PrintNat(n / 10) + [48 + n % 10]
  }

  function PrintInt(n: int): Bytes {
    if n < 0 then [MINUS] + PrintNat(-n) else PrintNat(n)
  }

  lemma {:induction false} PrintNatValue(n: nat)
    ensures DigitsValue(PrintNat(n)) == n
  {
    var s := PrintNat(n);
    if n < 10 {
      assert s[..|s| - 1] == [];
    } else {
      PrintNatValue(n / 10);
      assert s[..|s| - 1] == PrintNat(n / 10);
    }
  }

  /** Every 64-bit integer is read back from its decimal text. */
  lemma {:induction false} ParsePrintInt(n: int)
    requires MIN_INT64 <= n <= MAX_INT64
    ensures ParseInt(PrintInt(n)) == Some(n)
    ensures LF !in PrintInt(n)
  {
    PrintNatValue(if n < 0 then -n else n);
    if n < 0 {
      assert PrintInt(n)[1..] == PrintNat(-n);
    }
  }

  // ---------------------------------------------------------------- reading

  /** The position of the first line feed at or after `i`, or the end of the stream. */
  function LineEnd(s: Bytes, i: nat): (j: nat)
    requires i <= |s|
    ensures i <= j <= |s|
    decreases |s| - i
  {
    if i == |s| || s[i] == LF then i else LineEnd(s, i + 1)
  }

  function TrimCR(line: Bytes): Bytes {
    if |line| > 0 && line[|line| - 1] == CR then line[..|line| - 1] else line
  }

  function Line(s: Bytes, i: nat): Bytes
    requires i <= |s|
  {
    TrimCR(s[i..LineEnd(s, i)])
  }

  predicate HasLine(s: Bytes, i: nat)
    requires i <= |s|
  {
    LineEnd(s, i) < |s|
  }

  /** The decimal line after a `$`, `*` or `:`, with the position behind it. */
  datatype Header = NoLine | NotANumber(next: nat) | Length(n: int, next: nat)

  function ParseHeader(s: Bytes, i: nat): (h: Header)
    requires i <= |s|
    ensures !h.NoLine? ==> i < h.next <= |s|
    ensures h.Length? ==> MIN_INT64 <= h.n <= MAX_INT64
  {
    if !HasLine(s, i) then NoLine
    else
      var j := LineEnd(s, i) + 1;
      match ParseInt(Line(s, i))
      case None => NotANumber(j)
      case Some(n) => Length(n, j)
  }

  /** The body of a bulk string announced with length `n`: make, ReadFull and the terminator test. */
  function ParseBody(n: int, s: Bytes, j: nat): (o: Outcome)
    requires j <= |s|
    ensures !o.Panic? ==> j <= o.next <= |s|
  {
    if n == -1 then Nil(NilBulk, j)
    else if n + 2 < 0 || n + 2 > MAX_INT64 then Panic
    else if j + n + 2 > |s| then Fail(|s|)
    else if n < 0 || s[j + n] != CR || s[j + n + 1] != LF then Fail(j + n + 2)
    else Got(Bulk(s[j..j + n]), j + n + 2)
  }

  function ParseBulk(s: Bytes, i: nat): (o: Outcome)
    requires i <= |s|
    ensures o.HasValue() ==> i < o.next <= |s|
    ensures o.Fail? ==> i <= o.next <= |s|
  {
    match ParseHeader(s, i)
    case NoLine => Fail(|s|)
    case NotANumber(j) => Fail(j)
    case Length(n, j) => ParseBody(n, s, j)
  }

  function ParseItems(n: nat, s: Bytes, i: nat): (o: Items)
    requires i <= |s|
    ensures o.ItemsGot? ==> |o.vs| == n && i <= o.next <= |s|
    ensures o.ItemsFail? ==> i <= o.next <= |s|
    decreases |s| - i, 1, n
  {
    if n == 0 then ItemsGot([], i)
    else
      match ParseValue(s, i)
      case Panic => ItemsPanic
      case Fail(j) => ItemsFail(j)
      case Got(v, j) => Prepend(v, ParseItems(n - 1, s, j))
      case Nil(v, j) => Prepend(v, ParseItems(n - 1, s, j))
  }

  function Prepend(v: Value, o: Items): Items {
    if o.ItemsGot? then ItemsGot([v] + o.vs, o.next) else o
  }

  function ParseArray(s: Bytes, i: nat): (o: Outcome)
    requires i <= |s|
    ensures o.HasValue() ==> i < o.next <= |s|
    ensures o.Fail? ==> i <= o.next <= |s|
    decreases |s| - i, 2
  {
    match ParseHeader(s, i)
    case NoLine => Fail(|s|)
    case NotANumber(j) => Fail(j)
    case Length(n, j) =>
      if n == -1 then Nil(NilArray, j)
      else if n < 0 then Panic
      else
        match ParseItems(n, s, j)
        case ItemsPanic => Panic
        case ItemsFail(k) => Fail(k)
        case ItemsGot(vs, k) => Got(Array(vs), k)
  }

  function ParseValue(s: Bytes, i: nat): (o: Outcome)
    requires i <= |s|
    ensures o.HasValue() ==> i < o.next <= |s|
    ensures o.Fail? ==> i <= o.next <= |s|
    decreases |s| - i, 0
  {
    if i == |s| then Fail(i)
    else if s[i] == DOLLAR then ParseBulk(s, i + 1)
    else if s[i] == STAR then ParseArray(s, i + 1)
    else if s[i] == COLON then
      match ParseHeader(s, i + 1)
      case NoLine => Fail(|s|)
      case NotANumber(j) => Fail(j)
      case Length(n, j) => Got(Integer(n), j)
    else if s[i] != PLUS && s[i] != MINUS then Fail(i + 1)
    else if !HasLine(s, i + 1) then Fail(|s|)
    else if s[i] == PLUS then Got(Simple(Line(s, i + 1)), LineEnd(s, i + 1) + 1)
    else Fail(LineEnd(s, i + 1) + 1)
  }

  // ---------------------------------------------------------------- the stateful reader

  datatype Reply = Ok(v: Value) | NilReply(v: Value) | Error | Panicked

  function ReplyOf(o: Outcome): Reply {
    match o
    case Got(v, _) => Ok(v)
    case Nil(v, _) => NilReply(v)
    case Fail(_) => Error
    case Panic => Panicked
  }

  /** The buffered reader: the bytes of the connection and how many of them have been consumed. */
  class Reader {
    const data: Bytes
    var pos: nat

    ghost predicate Valid()
      reads this
    {
      pos <= |data|
    }

    constructor (data: Bytes)
      ensures Valid() && this.data == data && pos == 0
    {
      this.data, pos := data, 0;
    }

    /** Whether the read did what `o` says: its reply and its new position. */
    ghost predicate Did(r: Reply, o: Outcome)
      reads this
    {
      r == ReplyOf(o) && (!o.Panic? ==> pos == o.next)
    }

    method ReadLine() returns (line: Option<Bytes>)
      requires Valid()
      modifies this
      ensures Valid()
      ensures !HasLine(data, old(pos)) ==> line == None && pos == |data|
      ensures HasLine(data, old(pos)) ==> line == Some(Line(data, old(pos))) && pos == LineEnd(data, old(pos)) + 1
    {
      var j := LineEnd(data, pos);
      if j == |data| {
        pos := j;
        return None;
      }
      line := Some(TrimCR(data[pos..j]));
      pos := j + 1;
    }

    method ReadBulkString() returns (r: Reply)
      requires Valid()
      modifies this
      ensures Valid() && Did(r, ParseBulk(data, old(pos)))
    {
      hide LineEnd, ParseInt;
      var line := ReadLine();
      if line.None? { return Error; }
      var length := ParseInt(line.value);
      if length.None? { return Error; }
      var n := length.value;
      if n == -1 { return NilReply(NilBulk); }
      if n + 2 < 0 || n + 2 > MAX_INT64 { return Panicked; }
      if pos + n + 2 > |data| {
        pos := |data|;
        return Error;
      }
      ghost var start := pos;
      var buf := data[pos..pos + n + 2];
      pos := pos + n + 2;
      if |buf| < 2 || buf[|buf| - 2] != CR || buf[|buf| - 1] != LF { return Error; }
      assert buf[..n] == data[start..start + n];
      return Ok(Bulk(buf[..n]));
    }

    method ReadArray() returns (r: Reply)
      requires Valid()
      modifies this
      ensures Valid() && Did(r, ParseArray(data, old(pos)))
      decreases |data| - pos, 2
    {
      var line := ReadLine();
      if line.None? { return Error; }
      var length := ParseInt(line.value);
      if length.None? { return Error; }
      var n := length.value;
      if n == -1 { return NilReply(NilArray); }
      if n < 0 { return Panicked; }
      r := ReadItems(n);
    }

    /** The loop of readArray. */
    method ReadItems(n: nat) returns (r: Reply)
      requires Valid()
      modifies this
      ensures Valid()
      ensures match ParseItems(n, data, old(pos))
              case ItemsPanic => r == Panicked
              case ItemsFail(k) => r == Error && pos == k
              case ItemsGot(vs, k) => r == Ok(Array(vs)) && pos == k
      decreases |data| - pos, 1
    {
      hide ParseValue, ParseItems;
      ghost var start := pos;
      var values: seq<Value> := [];
      var i := 0;
      while i < n
        invariant 0 <= i <= n && |values| == i && start <= pos <= |data|
        invariant ParseItems(n, data, start) == PrependAll(values, ParseItems(n - i, data, pos))
      {
        ghost var before, at := values, pos;
        var item := ReadValue();
        if item.Error? || item.Panicked? {
          ItemsStop(n - i, data, at);
          return item;
        }
        ItemsStep(n - i - 1, data, at);
        values := values + [item.v];
        PrependAllSnoc(before, item.v, ParseItems(n - i - 1, data, pos));
        i := i + 1;
      }
      NoItems(data, pos);
      assert values + [] == values;
      return Ok(Array(values));
    }

    method ReadValue() returns (r: Reply)
      requires Valid()
      modifies this
      ensures Valid() && Did(r, ParseValue(data, old(pos)))
      decreases |data| - pos, 0
    {
      if pos == |data| { return Error; }
      var prefix := data[pos];
      pos := pos + 1;
      if prefix == DOLLAR {
        r := ReadBulkString();
      } else if prefix == STAR {
        r := ReadArray();
      } else if prefix != PLUS && prefix != MINUS && prefix != COLON {
        r := Error;
      } else {
        var line := ReadLine();
        if line.None? { return Error; }
        if prefix == PLUS { return Ok(Simple(line.value)); }
        if prefix == MINUS { return Error; }
        var n := ParseInt(line.value);
        r := if n.None? then Error else Ok(Integer(n.value));
      }
    }
  }

  ghost function PrependAll(vs: seq<Value>, o: Items): Items {
    if o.ItemsGot? then ItemsGot(vs + o.vs, o.next) else o
  }

  lemma {:induction false} PrependAllSnoc(vs: seq<Value>, v: Value, o: Items)
    ensures PrependAll(vs + [v], o) == PrependAll(vs, Prepend(v, o))
  {
  }

  // ---------------------------------------------------------------- printing

  /** A prefix byte, a number and the end of the line. */
  function PrintHeader(prefix: byte, n: int): Bytes {
    [prefix] + (PrintInt(n) + CRLF)
  }

  function PrintBulk(text: Bytes): Bytes {
    PrintHeader(DOLLAR, |text|) + (text + CRLF)
  }

  function Print(v: Value): Bytes {
    match v
    case Simple(text) => [PLUS] + (text + CRLF)
    case Integer(i) => PrintHeader(COLON, i)
    case Bulk(text) => PrintBulk(text)
    case NilBulk => PrintHeader(DOLLAR, -1)
    case Array(items) => PrintHeader(STAR, |items|) + PrintAll(items)
    case NilArray => PrintHeader(STAR, -1)
  }

  function PrintAll(vs: seq<Value>): Bytes {
    if vs == [] then [] else Print(vs[0]) + PrintAll(vs[1..])
  }

  /** Values that a reply can carry: lengths and integers fit Go's int, simple strings have no line feed. */
  predicate Printable(v: Value) {
    match v
    case Simple(text) => LF !in text
    case Integer(i) => MIN_INT64 <= i <= MAX_INT64
    case Bulk(text) => |text| + 2 <= MAX_INT64
    case NilBulk => true
    case Array(items) => |items| <= MAX_INT64 && forall k :: 0 <= k < |items| ==> Printable(items[k])
    case NilArray => true
  }

  /** The outcome the reader owes for a printed value: the nil replies come back with the nil error. */
  function Expected(v: Value, next: nat): Outcome {
    if v.NilBulk? || v.NilArray? then Nil(v, next) else Got(v, next)
  }

  /** `text` stands in the stream at position `i`. */
  predicate At(s: Bytes, i: nat, text: Bytes) {
    i + |text| <= |s| && s[i..i + |text|] == text
  }

  lemma {:induction false} AtSplit(s: Bytes, i: nat, a: Bytes, b: Bytes)
    requires At(s, i, a + b)
    ensures At(s, i, a) && At(s, i + |a|, b)
  {
    var both := s[i..i + |a + b|];
    assert both[..|a|] == s[i..i + |a|];
    assert both[|a|..] == s[i + |a|..i + |a| + |b|];
  }

  /** `j` is where the line that starts at `i` ends. */
  predicate EndsLine(s: Bytes, i: nat, j: nat) {
    i <= j < |s| && s[j] == LF && forall k :: i <= k < j ==> s[k] != LF
  }

  lemma {:induction false} LineEndIff(s: Bytes, i: nat, j: nat)
    requires i <= |s|
    ensures EndsLine(s, i, j) <==> HasLine(s, i) && LineEnd(s, i) == j
    decreases |s| - i
  {
    if i < |s| && s[i] != LF {
      LineEndIff(s, i + 1, j);
      assert EndsLine(s, i, j) <==> EndsLine(s, i + 1, j);
    }
  }

  /** A printed line is read back whole, with its terminator consumed. */
  lemma {:induction false} ReadPrintedLine(s: Bytes, i: nat, line: Bytes)
    requires At(s, i, line + CRLF) && LF !in line
    ensures HasLine(s, i) && Line(s, i) == line && LineEnd(s, i) + 1 == i + |line| + 2
  {
    AtSplit(s, i, line, CRLF);
    var j := i + |line|;
    assert s[j] == s[j..j + 2][0] && s[j + 1] == s[j..j + 2][1];
    forall k | i <= k < j + 1
      ensures s[k] != LF
    {
      if k < j {
        assert s[k] == s[i..j][k - i] == line[k - i];
      }
    }
    LineEndIff(s, i, j + 1);
    assert s[i..j + 1] == line + [CR];
  }

  /** A printed prefix byte and number are read back, whatever follows them. */
  lemma {:induction false} ReadPrintedHeader(s: Bytes, i: nat, prefix: byte, n: int)
    requires At(s, i, PrintHeader(prefix, n)) && MIN_INT64 <= n <= MAX_INT64
    ensures i < |s| && s[i] == prefix
    ensures ParseHeader(s, i + 1) == Length(n, i + |PrintHeader(prefix, n)|)
  {
    AtSplit(s, i, [prefix], PrintInt(n) + CRLF);
    assert s[i] == s[i..i + 1][0];
    ParsePrintInt(n);
    ReadPrintedLine(s, i + 1, PrintInt(n));
  }

  lemma {:induction false} ReadPrintedBody(s: Bytes, j: nat, text: Bytes)
    requires At(s, j, text + CRLF) && |text| + 2 <= MAX_INT64
    ensures ParseBody(|text|, s, j) == Got(Bulk(text), j + |text| + 2)
  {
    AtSplit(s, j, text, CRLF);
    var k := j + |text|;
    assert s[k] == s[k..k + 2][0] && s[k + 1] == s[k..k + 2][1];
  }

  lemma {:induction false} PrintedBulk(s: Bytes, i: nat, text: Bytes)
    requires At(s, i, PrintBulk(text)) && |text| + 2 <= MAX_INT64
    ensures ParseValue(s, i) == Got(Bulk(text), i + |PrintBulk(text)|)
  {
    hide PrintHeader, ParseHeader, ParseBody, ParseValue, At;
    var header := PrintHeader(DOLLAR, |text|);
    assert PrintBulk(text) == header + (text + CRLF);
    AtSplit(s, i, header, text + CRLF);
    ReadPrintedHeader(s, i, DOLLAR, |text|);
    ReadPrintedBody(s, i + |header|, text);
    BulkStep(s, i, |text|, i + |header|);
  }

  lemma {:induction false} BulkStep(s: Bytes, i: nat, n: int, j: nat)
    requires i < |s| && s[i] == DOLLAR && ParseHeader(s, i + 1) == Length(n, j)
    ensures ParseValue(s, i) == ParseBody(n, s, j)
  {
  }

  /** Every value tree, nested arrays and nil elements included, is read back from its printed form at any
      position of any stream, and exactly the printed bytes are consumed. */
  lemma {:induction false} ReadPrinted(s: Bytes, i: nat, v: Value)
    requires At(s, i, Print(v)) && Printable(v)
    ensures ParseValue(s, i) == Expected(v, i + |Print(v)|)
    decreases |Print(v)|, 1
  {
    hide LineEnd, ParseInt, ParseItems, PrintHeader, PrintBulk;
    match v
    case Simple(text) =>
      AtSplit(s, i, [PLUS], text + CRLF);
      assert s[i] == s[i..i + 1][0];
      ReadPrintedLine(s, i + 1, text);
    case Integer(n) =>
      ReadPrintedHeader(s, i, COLON, n);
    case Bulk(text) =>
      PrintedBulk(s, i, text);
    case NilBulk =>
      ReadPrintedHeader(s, i, DOLLAR, -1);
    case NilArray =>
      ReadPrintedHeader(s, i, STAR, -1);
    case Array(items) =>
      ReadPrintedArray(s, i, items);
  }

  lemma {:induction false} ReadPrintedArray(s: Bytes, i: nat, items: seq<Value>)
    requires At(s, i, Print(Array(items))) && Printable(Array(items))
    ensures ParseValue(s, i) == Got(Array(items), i + |Print(Array(items))|)
    decreases |Print(Array(items))|, 0
  {
    hide ParseHeader, PrintHeader, PrintAll, ParseItems, ParseValue, At;
    var header := PrintHeader(STAR, |items|);
    assert |header| > 0 by { HeaderNonempty(STAR, |items|); }
    AtSplit(s, i, header, PrintAll(items));
    ReadPrintedHeader(s, i, STAR, |items|);
    ReadPrintedItems(s, i + |header|, items);
    ArrayStep(s, i, |items|, i + |header|);
  }

  lemma {:induction false} ReadPrintedItems(s: Bytes, i: nat, vs: seq<Value>)
    requires At(s, i, PrintAll(vs)) && AllPrintable(vs)
    ensures ParseItems(|vs|, s, i) == ItemsGot(vs, i + |PrintAll(vs)|)
    decreases |PrintAll(vs)|, 2
  {
    hide *;
    AtWithin(s, i, PrintAll(vs));
    if vs == [] {
      NoItems(s, i);
      PrintNone();
    } else {
      var v, rest := vs[0], vs[1..];
      PrintableSplit(vs);
      PrintAllHead(vs);
      AtSplit(s, i, Print(v), PrintAll(rest));
      ReadPrinted(s, i, v);
      ReadPrintedItems(s, i + |Print(v)|, rest);
      ItemsPrepend(s, i, v, i + |Print(v)|, rest);
      assert vs == [v] + rest;
    }
  }

  lemma {:induction false} AtWithin(s: Bytes, i: nat, text: Bytes)
    requires At(s, i, text)
    ensures i + |text| <= |s|
  {
  }

  lemma {:induction false} PrintNone()
    ensures PrintAll([]) == []
  {
  }

  lemma {:induction false} HeaderNonempty(prefix: byte, n: int)
    ensures |PrintHeader(prefix, n)| > 0
  {
  }

  lemma {:induction false} PrintAllHead(vs: seq<Value>)
    requires vs != []
    ensures PrintAll(vs) == Print(vs[0]) + PrintAll(vs[1..]) && |Print(vs[0])| > 0
  {
  }

  lemma {:induction false} ItemsPrepend(s: Bytes, i: nat, v: Value, j: nat, rest: seq<Value>)
    requires i <= |s| && j <= |s| && ParseValue(s, i) == Expected(v, j)
    requires ParseItems(|rest|, s, j).ItemsGot? && ParseItems(|rest|, s, j).vs == rest
    ensures ParseItems(|rest| + 1, s, i) == ItemsGot([v] + rest, ParseItems(|rest|, s, j).next)
  {
    hide ParseValue, ParseItems;
    ItemsStep(|rest|, s, i);
  }

  predicate AllPrintable(vs: seq<Value>) {
    forall k :: 0 <= k < |vs| ==> Printable(vs[k])
  }

  lemma {:induction false} PrintableSplit(vs: seq<Value>)
    requires AllPrintable(vs) && vs != []
    ensures Printable(vs[0]) && AllPrintable(vs[1..])
  {
  }

  lemma {:induction false} ArrayStep(s: Bytes, i: nat, n: nat, j: nat)
    requires i < |s| && s[i] == STAR && ParseHeader(s, i + 1) == Length(n, j) && ParseItems(n, s, j).ItemsGot?
    ensures ParseValue(s, i) == Got(Array(ParseItems(n, s, j).vs), ParseItems(n, s, j).next)
  {
  }

  lemma {:induction false} NoItems(s: Bytes, i: nat)
    requires i <= |s|
    ensures ParseItems(0, s, i) == ItemsGot([], i)
  {
  }

  lemma {:induction false} ItemsStop(n: nat, s: Bytes, i: nat)
    requires i <= |s| && n > 0 && !ParseValue(s, i).HasValue()
    ensures ParseItems(n, s, i) == if ParseValue(s, i).Panic? then ItemsPanic else ItemsFail(ParseValue(s, i).next)
  {
  }

  lemma {:induction false} ItemsSplit(n: nat, s: Bytes, i: nat)
    requires i <= |s| && n > 0 && ParseItems(n, s, i).ItemsGot?
    ensures ParseValue(s, i).HasValue() && ParseItems(n - 1, s, ParseValue(s, i).next).ItemsGot?
    ensures ParseItems(n, s, i).next == ParseItems(n - 1, s, ParseValue(s, i).next).next
  {
  }

  lemma {:induction false} ItemsStep(n: nat, s: Bytes, i: nat)
    requires i <= |s| && ParseValue(s, i).HasValue()
    ensures ParseItems(n + 1, s, i) == Prepend(ParseValue(s, i).v, ParseItems(n, s, ParseValue(s, i).next))
  {
  }

  function Bulks(args: seq<Bytes>): (vs: seq<Value>)
    ensures |vs| == |args| && forall k :: 0 <= k < |args| ==> vs[k] == Bulk(args[k])
  {
    seq(|args|, k requires 0 <= k < |args| => Bulk(args[k]))
  }

  lemma {:induction false} PrintAllSnoc(vs: seq<Value>, v: Value)
    ensures PrintAll(vs + [v]) == PrintAll(vs) + Print(v)
  {
    if vs == [] {
      assert PrintAll([v]) == Print(v) + PrintAll([]);
    } else {
      assert (vs + [v])[1..] == vs[1..] + [v];
      PrintAllSnoc(vs[1..], v);
    }
  }

  lemma {:induction false} PrintBulksSnoc(args: seq<Bytes>, i: nat)
    requires i < |args|
    ensures PrintAll(Bulks(args[..i + 1])) == PrintAll(Bulks(args[..i])) + PrintBulk(args[i])
  {
    assert Bulks(args[..i + 1]) == Bulks(args[..i]) + [Bulk(args[i])];
    PrintAllSnoc(Bulks(args[..i]), Bulk(args[i]));
  }

  lemma {:induction false} CommandParts(args: seq<Bytes>)
    ensures PrintAll(Bulks(args[..0])) == []
    ensures Print(Array(Bulks(args))) == PrintHeader(STAR, |args|) + PrintAll(Bulks(args))
  {
  }

  /** The client's printer: it emits exactly the array of bulk strings, whatever bytes the arguments hold. */
  method EncodeCommand(args: seq<Bytes>) returns (b: Bytes)
    ensures b == Print(Array(Bulks(args)))
  {
    hide *;
    b := PrintHeader(STAR, |args|);
    ghost var header := b;
    CommandParts(args);
    for i := 0 to |args|
      invariant b == header + PrintAll(Bulks(args[..i]))
    {
      PrintBulksSnoc(args, i);
      b := b + PrintBulk(args[i]);
    }
    assert args[..|args|] == args;
  }

  /** encodeCommand followed by any bytes reads back as exactly those bulk strings and leaves exactly those bytes. */
  lemma {:induction false} CommandRoundTrip(args: seq<Bytes>, rest: Bytes)
    requires |args| <= MAX_INT64 && forall k :: 0 <= k < |args| ==> |args[k]| + 2 <= MAX_INT64
    ensures
      var encoded := Print(Array(Bulks(args)));
      ParseValue(encoded + rest, 0) == Got(Array(Bulks(args)), |encoded|)
      && (encoded + rest)[|encoded|..] == rest
  {
    var encoded := Print(Array(Bulks(args)));
    assert (encoded + rest)[0..|encoded|] == encoded;
    ReadPrinted(encoded + rest, 0, Array(Bulks(args)));
  }

  // ---------------------------------------------------------------- locality

  /** The two streams carry the same bytes before position `n`. */
  predicate SameUpTo(s: Bytes, t: Bytes, n: nat) {
    n <= |s| && n <= |t| && forall k :: 0 <= k < n ==> s[k] == t[k]
  }

  lemma {:induction false} LineLocal(s: Bytes, t: Bytes, i: nat)
    requires i <= |s| && HasLine(s, i) && SameUpTo(s, t, LineEnd(s, i) + 1)
    ensures HasLine(t, i) && LineEnd(t, i) == LineEnd(s, i) && Line(t, i) == Line(s, i)
  {
    var j := LineEnd(s, i);
    LineEndIff(s, i, j);
    LineEndIff(t, i, j);
    assert s[i..j] == t[i..j];
  }

  lemma {:induction false} HeaderLocal(s: Bytes, t: Bytes, i: nat)
    requires i <= |s| && ParseHeader(s, i).Length? && SameUpTo(s, t, ParseHeader(s, i).next)
    ensures ParseHeader(t, i) == ParseHeader(s, i)
  {
    LineLocal(s, t, i);
  }

  lemma {:induction false} BodyLocal(n: int, s: Bytes, t: Bytes, j: nat)
    requires j <= |s| && ParseBody(n, s, j).HasValue() && SameUpTo(s, t, ParseBody(n, s, j).next)
    ensures ParseBody(n, t, j) == ParseBody(n, s, j)
  {
    if n != -1 {
      assert s[j..j + n] == t[j..j + n];
    }
  }

  lemma {:induction false} ItemsLocal(n: nat, s: Bytes, t: Bytes, i: nat)
    requires i <= |s| && ParseItems(n, s, i).ItemsGot? && SameUpTo(s, t, ParseItems(n, s, i).next)
    ensures ParseItems(n, t, i) == ParseItems(n, s, i)
    decreases |s| - i, 1, n
  {
    hide ParseItems, ParseValue;
    if n != 0 {
      ItemsSplit(n, s, i);
      ValueLocal(s, t, i);
      ItemsLocal(n - 1, s, t, ParseValue(s, i).next);
      ItemsStep(n - 1, s, i);
      ItemsStep(n - 1, t, i);
    } else {
      NoItems(s, i);
      NoItems(t, i);
    }
  }

  lemma {:induction false} BulkLocal(s: Bytes, t: Bytes, i: nat)
    requires i <= |s| && ParseBulk(s, i).HasValue() && SameUpTo(s, t, ParseBulk(s, i).next)
    ensures ParseBulk(t, i) == ParseBulk(s, i)
  {
    var h := ParseHeader(s, i);
    HeaderLocal(s, t, i);
    BodyLocal(h.n, s, t, h.next);
  }

  lemma {:induction false} ArrayLocal(s: Bytes, t: Bytes, i: nat)
    requires i <= |s| && ParseArray(s, i).HasValue() && SameUpTo(s, t, ParseArray(s, i).next)
    ensures ParseArray(t, i) == ParseArray(s, i)
    decreases |s| - i, 2
  {
    hide ParseHeader, ParseItems;
    var h := ParseHeader(s, i);
    HeaderLocal(s, t, i);
    if h.n != -1 {
      ItemsLocal(h.n, s, t, h.next);
    }
  }

  /** A read that yields a value depends only on the bytes it consumed: any other continuation of the stream gives
      the same value at the same position. */
  lemma {:induction false} ValueLocal(s: Bytes, t: Bytes, i: nat)
    requires i <= |s| && ParseValue(s, i).HasValue() && SameUpTo(s, t, ParseValue(s, i).next)
    ensures ParseValue(t, i) == ParseValue(s, i)
    decreases |s| - i, 0
  {
    hide ParseArray, ParseBulk, ParseHeader;
    if s[i] == DOLLAR {
      BulkLocal(s, t, i + 1);
    } else if s[i] == STAR {
      ArrayLocal(s, t, i + 1);
    } else if s[i] == COLON {
      HeaderLocal(s, t, i + 1);
    } else {
      LineLocal(s, t, i + 1);
    }
  }

  // ---------------------------------------------------------------- exactly what is read

  /** The line from `i`, which ends just before `b`, is the decimal number `n`. */
  predicate Announces(s: Bytes, i: nat, n: int, b: nat) {
    b > 0 && EndsLine(s, i, b - 1) && ParseInt(TrimCR(s[i..b - 1])) == Some(n)
  }

  /** From `b` up to `j` stand the text and its terminator. */
  predicate TextAt(s: Bytes, b: nat, text: Bytes, j: nat) {
    b + |text| + 2 == j <= |s| && s[b..b + |text|] == text && s[j - 2] == CR && s[j - 1] == LF
  }

  /** The bytes from `i` up to `j` are a reply with the value `v`: a line after `+`, a number after `:`, an announced number
      of bytes with its terminator after `$`, an announced number of replies after `*`, or an announced length of -1. */
  ghost predicate Reads(s: Bytes, i: nat, v: Value, j: nat)
    decreases v, 0
  {
    && i < j <= |s|
    && match v
       case Simple(text) => s[i] == PLUS && EndsLine(s, i + 1, j - 1) && text == TrimCR(s[i + 1..j - 1])
       case Integer(n) => s[i] == COLON && Announces(s, i + 1, n, j)
       case Bulk(text) =>
         s[i] == DOLLAR && |text| + 2 <= MAX_INT64 && exists b :: Announces(s, i + 1, |text|, b) && TextAt(s, b, text, j)
       case NilBulk => s[i] == DOLLAR && Announces(s, i + 1, -1, j)
       case Array(items) => s[i] == STAR && exists b :: Announces(s, i + 1, |items|, b) && ReadsAll(s, b, items, j)
       case NilArray => s[i] == STAR && Announces(s, i + 1, -1, j)
  }

  ghost predicate ReadsAll(s: Bytes, i: nat, vs: seq<Value>, j: nat)
    decreases vs, 1
  {
    if vs == [] then i == j
    else exists k :: i < k <= |s| && Reads(s, i, vs[0], k) && ReadsAll(s, k, vs[1..], j)
  }

  lemma {:induction false} HeaderIff(s: Bytes, i: nat, n: int, j: nat)
    requires i <= |s|
    ensures ParseHeader(s, i) == Length(n, j) <==> Announces(s, i, n, j)
  {
    if HasLine(s, i) {
      LineEndIff(s, i, LineEnd(s, i));
    }
    if j > 0 {
      LineEndIff(s, i, j - 1);
    }
  }

  /** The number after a prefix byte is announced once at most. */
  lemma {:induction false} HeaderIs(s: Bytes, i: nat)
    requires i <= |s|
    ensures forall n, j: nat :: Announces(s, i, n, j) <==> ParseHeader(s, i) == Length(n, j)
  {
    hide Announces, ParseHeader;
    forall n, j: nat
      ensures Announces(s, i, n, j) <==> ParseHeader(s, i) == Length(n, j)
    {
      HeaderIff(s, i, n, j);
    }
  }

  lemma {:induction false} BodyIff(s: Bytes, n: int, b: nat, text: Bytes, j: nat)
    requires b <= |s|
    ensures ParseBody(n, s, b) == Got(Bulk(text), j) <==> n == |text| && |text| + 2 <= MAX_INT64 && TextAt(s, b, text, j)
  {
  }

  lemma {:induction false} BulkIff(s: Bytes, i: nat, v: Value, j: nat)
    requires i < |s| && s[i] == DOLLAR
    ensures ParseValue(s, i) == Expected(v, j) <==> Reads(s, i, v, j)
  {
    hide ParseHeader, Announces, TextAt, ParseBody;
    HeaderIs(s, i + 1);
    var h := ParseHeader(s, i + 1);
    assert ParseValue(s, i) == ParseBulk(s, i + 1);
    if h.Length? {
      assert ParseValue(s, i) == ParseBody(h.n, s, h.next);
      NilBodyIff(s, h.n, h.next);
      if v.Bulk? {
        BodyIff(s, h.n, h.next, v.text, j);
        TextEnds(s, h.next, v.text, j);
      }
    }
  }

  lemma {:induction false} TextEnds(s: Bytes, b: nat, text: Bytes, j: nat)
    ensures TextAt(s, b, text, j) ==> b < j <= |s|
  {
  }

  lemma {:induction false} NilBodyIff(s: Bytes, n: int, b: nat)
    requires b <= |s|
    ensures ParseBody(n, s, b).Nil? <==> n == -1
    ensures n == -1 ==> ParseBody(n, s, b) == Nil(NilBulk, b)
    ensures ParseBody(n, s, b).Got? ==> ParseBody(n, s, b).v.Bulk?
  {
  }

  lemma {:induction false} LineIff(s: Bytes, i: nat, v: Value, j: nat)
    requires i < |s| && s[i] != DOLLAR && s[i] != STAR
    ensures ParseValue(s, i) == Expected(v, j) <==> Reads(s, i, v, j)
  {
    hide ParseHeader, Announces, LineEnd, ParseArray, ParseBulk, ReadsAll, TextAt, TrimCR, EndsLine;
    HeaderIs(s, i + 1);
    if j > 0 {
      LineEndIff(s, i + 1, j - 1);
    }
    if HasLine(s, i + 1) {
      LineEndIff(s, i + 1, LineEnd(s, i + 1));
    }
  }

  lemma {:induction false} ItemsIff(s: Bytes, i: nat, vs: seq<Value>, j: nat)
    requires i <= |s|
    ensures ParseItems(|vs|, s, i) == ItemsGot(vs, j) <==> ReadsAll(s, i, vs, j)
    decreases |s| - i, 1, |vs|
  {
    hide ParseItems, ParseValue, Reads;
    if vs == [] {
      NoItems(s, i);
    } else {
      var v, rest := vs[0], vs[1..];
      if ParseValue(s, i).HasValue() {
        var k := ParseValue(s, i).next;
        ItemsStep(|rest|, s, i);
        ReadIff(s, i, ParseValue(s, i).v, k);
        ValueKind(s, i);
        ItemsIff(s, k, rest, j);
        assert vs == [v] + rest;
      } else {
        ItemsStop(|vs|, s, i);
      }
      forall k: nat | i < k <= |s| && Reads(s, i, v, k)
        ensures ParseValue(s, i) == Expected(v, k)
      {
        ReadIff(s, i, v, k);
      }
    }
  }

  lemma {:induction false} ValueKind(s: Bytes, i: nat)
    requires i <= |s| && ParseValue(s, i).HasValue()
    ensures ParseValue(s, i) == Expected(ParseValue(s, i).v, ParseValue(s, i).next)
  {
  }

  lemma {:induction false} ArrayIff(s: Bytes, i: nat, v: Value, j: nat)
    requires i < |s| && s[i] == STAR
    ensures ParseValue(s, i) == Expected(v, j) <==> Reads(s, i, v, j)
    decreases |s| - i, 0, 0
  {
    hide ParseHeader, Announces, ParseItems, ReadsAll;
    HeaderIs(s, i + 1);
    var h := ParseHeader(s, i + 1);
    assert ParseValue(s, i) == ParseArray(s, i + 1);
    if h.Length? && h.n >= 0 && v.Array? {
      ItemsIff(s, h.next, v.items, j);
      if ReadsAll(s, h.next, v.items, j) {
        ReadsForward(s, h.next, v.items, j);
      }
    }
  }

  lemma {:induction false} ReadsForward(s: Bytes, i: nat, vs: seq<Value>, j: nat)
    requires i <= |s| && ReadsAll(s, i, vs, j)
    ensures i <= j <= |s|
    decreases |vs|
  {
    hide Reads;
    if vs != [] {
      var k :| i < k <= |s| && Reads(s, i, vs[0], k) && ReadsAll(s, k, vs[1..], j);
      ReadsForward(s, k, vs[1..], j);
    }
  }

  /** Exactly what the reader accepts: it returns a value and stops at `j` exactly when the bytes from `i` up to `j` are a
      reply with that value. So an error line, a missing terminator or an unknown prefix is never a value. */
  lemma {:induction false} ReadIff(s: Bytes, i: nat, v: Value, j: nat)
    requires i <= |s|
    ensures ParseValue(s, i) == Expected(v, j) <==> Reads(s, i, v, j)
    decreases |s| - i, 0, 1
  {
    if i < |s| {
      hide ParseValue, Reads;
      if s[i] == DOLLAR {
        BulkIff(s, i, v, j);
      } else if s[i] == STAR {
        ArrayIff(s, i, v, j);
      } else {
        LineIff(s, i, v, j);
      }
    }
  }

  /** An error reply is an error, and its line is consumed. */
  lemma {:induction false} ErrorLine(s: Bytes, i: nat, j: nat)
    requires i < |s| && s[i] == MINUS && EndsLine(s, i + 1, j)
    ensures ParseValue(s, i) == Fail(j + 1)
  {
    LineEndIff(s, i + 1, j);
  }

  /** A reply that starts with any other byte is an error at once. */
  lemma {:induction false} UnknownPrefix(s: Bytes, i: nat)
    requires i < |s| && s[i] !in {PLUS, MINUS, COLON, DOLLAR, STAR}
    ensures ParseValue(s, i) == Fail(i + 1)
  {
  }

  /** A length below -1 makes the reader panic, whatever follows; for a bulk string one of -2 is an error instead, and one
      too large for its terminator a panic. */
  lemma {:induction false} LengthPanics(s: Bytes, i: nat, n: int, b: nat)
    requires i < |s| && Announces(s, i + 1, n, b)
    ensures s[i] == STAR && n < -1 ==> ParseValue(s, i).Panic?
    ensures s[i] == DOLLAR ==> (ParseValue(s, i).Panic? <==> n < -2 || n + 2 > MAX_INT64)
  {
    hide ParseHeader, Announces, ParseItems;
    HeaderIff(s, i + 1, n, b);
    assert s[i] == DOLLAR ==> ParseValue(s, i) == ParseBody(n, s, b);
    assert s[i] == STAR ==> ParseValue(s, i) == ParseArray(s, i + 1);
  }
}
