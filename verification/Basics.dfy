/** Notions shared by the models: Go strings, instants, digests and the text order of the databases.

    A Dafny string stands for a Go string byte by byte (every character is one byte), so lengths count bytes and
    `TextLess` is the byte order SQLite and Go use. JSON, SHA-256 and signatures are parameters of the models that
    need them.
 */
module Basics {
  datatype Option<+T> = None | Some(value: T)

  datatype Pair<+A, +B> = Pair(fst: A, snd: B)

  /** An instant: nanoseconds since the first of January of year 1, so that Go's zero time is 0. */
  type Time = int

  const ZERO_TIME: Time := 0
  const SECOND: int := 1_000_000_000
  const MINUTE: int := 60 * SECOND

  // ---------------------------------------------------------------- blank text

  /** The ASCII characters that unicode.IsSpace accepts. */
  predicate IsSpace(c: char) {
    c == ' ' || c == '\t' || c == '\n' || c == '\r' || c as int == 11 || c as int == 12
  }

  function TrimLeft(s: string): string {
    if s != "" && IsSpace(s[0]) then TrimLeft(s[1..]) else s
  }

  function TrimRight(s: string): string {
    if s != "" && IsSpace(s[|s| - 1]) then TrimRight(s[..|s| - 1]) else s
  }

  /** strings.TrimSpace on ASCII text. */
  function TrimSpace(s: string): string {
    TrimRight(TrimLeft(s))
  }

  predicate Blank(s: string) {
    TrimSpace(s) == ""
  }

  lemma {:induction false} TrimLeftBlank(s: string)
    ensures TrimLeft(s) == "" <==> forall i :: 0 <= i < |s| ==> IsSpace(s[i])
  {
    if s != "" {
      TrimLeftBlank(s[1..]);
      assert forall i :: 1 <= i < |s| ==> s[i] == s[1..][i - 1];
    }
  }

  /** Trimming leaves nothing exactly when every character is white space. */
  lemma {:induction false} BlankIff(s: string)
    ensures Blank(s) <==> forall i :: 0 <= i < |s| ==> IsSpace(s[i])
  {
    TrimLeftBlank(s);
    TrimLeftHead(s);
    TrimRightKeepsInk(TrimLeft(s));
  }

  lemma {:induction false} TrimRightKeepsInk(s: string)
    requires s == "" || !IsSpace(s[0])
    ensures TrimRight(s) == "" <==> s == ""
    ensures s != "" ==> TrimRight(s)[0] == s[0]
  {
    if s != "" && IsSpace(s[|s| - 1]) {
      TrimRightKeepsInk(s[..|s| - 1]);
    }
  }

  lemma {:induction false} TrimLeftHead(s: string)
    ensures TrimLeft(s) == "" || !IsSpace(TrimLeft(s)[0])
  {
    if s != "" {
      TrimLeftHead(s[1..]);
    }
  }

  lemma {:induction false} TrimRightLast(s: string)
    ensures TrimRight(s) == "" || !IsSpace(TrimRight(s)[|TrimRight(s)| - 1])
  {
    if s != "" {
      TrimRightLast(s[..|s| - 1]);
    }
  }

  /** Trimming twice is trimming once. */
  lemma {:induction false} TrimTwice(s: string)
    ensures TrimSpace(TrimSpace(s)) == TrimSpace(s)
  {
    TrimLeftHead(s);
    TrimRightKeepsInk(TrimLeft(s));
    TrimRightLast(TrimLeft(s));
  }

  lemma {:induction false} TrimLeftIs(s: string) returns (k: nat)
    ensures k <= |s| && TrimLeft(s) == s[k..] && forall n :: 0 <= n < k ==> IsSpace(s[n])
  {
    k := 0;
    if s != "" && IsSpace(s[0]) {
      k := TrimLeftIs(s[1..]);
      assert forall n :: 1 <= n < |s| ==> s[n] == s[1..][n - 1];
      k := k + 1;
    }
  }

  lemma {:induction false} TrimRightIs(s: string) returns (k: nat)
    ensures k <= |s| && TrimRight(s) == s[..k] && forall n :: k <= n < |s| ==> IsSpace(s[n])
  {
    k := |s|;
    if s != "" && IsSpace(s[|s| - 1]) {
      k := TrimRightIs(s[..|s| - 1]);
    }
  }

  /** Trimming takes away white space at both ends, as much as there is, and nothing else. */
  lemma {:induction false} TrimSpaceIs(s: string) returns (i: nat, j: nat)
    ensures i <= j <= |s| && TrimSpace(s) == s[i..j]
    ensures forall n :: 0 <= n < i || j <= n < |s| ==> IsSpace(s[n])
    ensures i == j || (!IsSpace(s[i]) && !IsSpace(s[j - 1]))
  {
    hide TrimLeft, TrimRight;
    var left := TrimLeft(s);
    i := TrimLeftIs(s);
    var k := TrimRightIs(left);
    j := i + k;
    TrimLeftHead(s);
    TrimRightKeepsInk(left);
    TrimRightLast(left);
    assert forall n :: i <= n < |s| ==> s[n] == left[n - i];
  }

  /** Text that starts with ink is not blank. */
  lemma {:induction false} InkIsNotBlank(s: string)
    requires s != "" && !IsSpace(s[0])
    ensures !Blank(s)
  {
    BlankIff(s);
  }

  /** Text that starts and ends with ink is its own trimmed form. */
  lemma {:induction false} InkIsTrimmed(s: string)
    requires s != "" && !IsSpace(s[0]) && !IsSpace(s[|s| - 1])
    ensures TrimSpace(s) == s
  {
  }

  // ---------------------------------------------------------------- text order

  /** The byte order on strings: the order of memcmp and of Go's `<`. */
  predicate TextLess(a: string, b: string) {
    b != "" && (a == "" || a[0] < b[0] || (a[0] == b[0] && TextLess(a[1..], b[1..])))
  }

  /** One text is less than another exactly when, at the first place where they differ, it ends or has the lesser byte. */
  lemma {:induction false} TextLessIff(a: string, b: string)
    ensures TextLess(a, b)
            <==> exists k :: 0 <= k <= |a| && k < |b| && a[..k] == b[..k] && (k == |a| || a[k] < b[k])
  {
    if a != "" && b != "" {
      TextLessIff(a[1..], b[1..]);
      if a[0] == b[0] && TextLess(a[1..], b[1..]) {
        var k :| 0 <= k <= |a[1..]| && k < |b[1..]| && a[1..][..k] == b[1..][..k] && (k == |a[1..]| || a[1..][k] < b[1..][k]);
        assert a[..k + 1] == [a[0]] + a[1..][..k] && b[..k + 1] == [b[0]] + b[1..][..k];
        assert k + 1 == |a| || a[k + 1] < b[k + 1];
      } else if a[0] < b[0] {
        assert a[..0] == b[..0];
      }
      if k :| 0 < k <= |a| && k < |b| && a[..k] == b[..k] && (k == |a| || a[k] < b[k]) {
        assert a[0] == a[..k][0] == b[..k][0] == b[0];
        assert a[1..][..k - 1] == a[..k][1..] == b[..k][1..] == b[1..][..k - 1];
        assert k - 1 == |a[1..]| || a[1..][k - 1] < b[1..][k - 1];
      }
    } else if b != "" {
      assert a[..0] == b[..0];
    }
  }

  lemma {:induction false} TextLessTotal(a: string, b: string)
    ensures TextLess(a, b) || a == b || TextLess(b, a)
    ensures !(TextLess(a, b) && TextLess(b, a))
    ensures a == b ==> !TextLess(a, b)
  {
    if a != "" && b != "" {
      TextLessTotal(a[1..], b[1..]);
      assert a[0] == b[0] && a[1..] == b[1..] ==> a == b by {
        assert a == [a[0]] + a[1..] && b == [b[0]] + b[1..];
      }
    }
  }

  lemma {:induction false} TextLessTransitive(a: string, b: string, c: string)
    requires TextLess(a, b) && TextLess(b, c)
    ensures TextLess(a, c)
  {
    if a != "" && a[0] == b[0] == c[0] {
      TextLessTransitive(a[1..], b[1..], c[1..]);
    }
  }

  // ---------------------------------------------------------------- digests

  type byte = x: int | 0 <= x < 256

  /** SHA-256 as an unknown function from byte strings to digests. */
  type HashFn = string -> seq<byte>

  const NUL: char := 0 as char

  predicate NulFree(s: string) {
    NUL !in s
  }

  /** strings.Join(fields, "\x00") on a non-empty list. */
  function Join(fields: seq<string>): string
    requires fields != []
  {
    if |fields| == 1 then fields[0] else fields[0] + [NUL] + Join(fields[1..])
  }

  function HexDigit(d: int): (c: char)
    requires 0 <= d < 16
    ensures c != NUL
  {
    if d < 10 then (48 + d) as char else (87 + d) as char
  }

  lemma {:induction false} HexDigitIs(d: int)
    requires 0 <= d < 16
    ensures HexDigit(d) == "0123456789abcdef"[d]
  {
  }

  function Hex(bytes: seq<byte>): (s: string)
    ensures |s| == 2 * |bytes| && NulFree(s)
  {
    if bytes == [] then "" else [HexDigit(bytes[0] / 16), HexDigit(bytes[0] % 16)] + Hex(bytes[1..])
  }

  lemma {:induction false} HexInjective(a: seq<byte>, b: seq<byte>)
    requires Hex(a) == Hex(b)
    ensures a == b
  {
    assert 2 * |a| == |Hex(a)| == |Hex(b)| == 2 * |b|;
    if a != [] {
      assert Hex(a)[2..] == Hex(a[1..]) && Hex(b)[2..] == Hex(b[1..]);
      assert HexDigit(a[0] / 16) == Hex(a)[0] == Hex(b)[0] == HexDigit(b[0] / 16);
      assert HexDigit(a[0] % 16) == Hex(a)[1] == Hex(b)[1] == HexDigit(b[0] % 16);
      HexInjective(a[1..], b[1..]);
      assert a == [a[0]] + a[1..] && b == [b[0]] + b[1..];
    }
  }

  const DIGEST_PREFIX: string := "sha256:"

  /** domain.SHA256JSON and its copies: the prefixed hexadecimal digest. */
  function DigestText(hash: HashFn, data: string): (d: string)
    ensures d != "" && NulFree(d)
  {
    DIGEST_PREFIX + Hex(hash(data))
  }

  /** Equal digest texts come from equal digests. */
  lemma {:induction false} DigestTextInjective(hash: HashFn, x: string, y: string)
    requires DigestText(hash, x) == DigestText(hash, y)
    ensures hash(x) == hash(y)
  {
    assert Hex(hash(x)) == DigestText(hash, x)[|DIGEST_PREFIX|..];
    assert Hex(hash(y)) == DigestText(hash, y)[|DIGEST_PREFIX|..];
    HexInjective(hash(x), hash(y));
  }

  /** Two different inputs with one digest. */
  predicate Collides(hash: HashFn, pair: Pair<string, string>) {
    pair.fst != pair.snd && hash(pair.fst) == hash(pair.snd)
  }
}
