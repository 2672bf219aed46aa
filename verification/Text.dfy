/**
  Text as the source sees it: a sequence of Unicode code points, some of which
  (the surrogates) have no UTF-8 encoding.  Splitting and joining at a
  separator are stated for sequences of any type.
 */
module Text {
  type CodePoint = n: nat | n < 0x11_0000
  type Text = seq<CodePoint>
  type Byte = n: nat | n < 256
  type Bytes = seq<Byte>

  // ---------------------------------------------------------------- split and join

  function IndexOf<T(==)>(s: seq<T>, sep: T): (k: nat)
    ensures k <= |s|
    ensures sep !in s[..k]
    ensures k < |s| ==> s[k] == sep
  {
    if s == [] || s[0] == sep then 0 else
      var k := IndexOf(s[1..], sep) + 1;
      assert s[..k] == [s[0]] + s[1..][..k - 1];
      k
  }

  function Split<T(==)>(s: seq<T>, sep: T): (parts: seq<seq<T>>)
    ensures parts != []
    decreases |s|
  {
    var k := IndexOf(s, sep);
    if k == |s| then [s] else [s[..k]] + Split(s[k + 1..], sep)
  }

  function Join<T>(parts: seq<seq<T>>, sep: T): seq<T>
    requires parts != []
  {
    if |parts| == 1 then parts[0] else parts[0] + [sep] + Join(parts[1..], sep)
  }

  lemma {:induction false} JoinSplit<T>(s: seq<T>, sep: T)
    ensures Join(Split(s, sep), sep) == s
    ensures forall part <- Split(s, sep) :: sep !in part
    decreases |s|
  {
    var k := IndexOf(s, sep);
    if k == |s| {
      assert s == s[..k];
    } else {
      JoinSplit(s[k + 1..], sep);
      var rest := Split(s[k + 1..], sep);
      assert Split(s, sep) == [s[..k]] + rest && Split(s, sep)[1..] == rest;
      assert s == s[..k] + [sep] + s[k + 1..];
      hide Split, IndexOf;
    }
  }

  lemma {:induction false} SplitOnce<T>(head: seq<T>, tail: seq<T>, sep: T)
    requires sep !in head
    ensures Split(head + [sep] + tail, sep) == [head] + Split(tail, sep)
  {
    var s := head + [sep] + tail;
    var k := IndexOf(s, sep);
    assert forall i | 0 <= i < |head| :: s[i] == head[i];
    assert forall i | 0 <= i < k :: s[i] == s[..k][i];
    assert s[|head|] == sep;
    assert s[..k] == head && s[k + 1..] == tail;
  }

  lemma SplitWhole<T>(s: seq<T>, sep: T)
    requires sep !in s
    ensures Split(s, sep) == [s]
  {
  }

  lemma JoinParts<T>(parts: seq<seq<T>>, sep: T)
    requires parts != []
    ensures Join(parts, sep) == if |parts| == 1 then parts[0] else parts[0] + [sep] + Join(parts[1..], sep)
  {
  }

  lemma {:induction false} SplitJoin<T>(parts: seq<seq<T>>, sep: T)
    requires parts != []
    requires forall part <- parts :: sep !in part
    ensures Split(Join(parts, sep), sep) == parts
    decreases |parts|
  {
    hide *;
    JoinParts(parts, sep);
    assert parts[0] in parts && sep !in parts[0];
    assert parts == [parts[0]] + parts[1..];
    if |parts| == 1 {
      SplitWhole(parts[0], sep);
    } else {
      SplitJoin(parts[1..], sep);
      SplitOnce(parts[0], Join(parts[1..], sep), sep);
    }
  }

  lemma {:induction false} JoinConcat<T>(a: seq<seq<T>>, b: seq<seq<T>>, sep: T)
    requires a != [] && b != []
    ensures Join(a + b, sep) == Join(a, sep) + [sep] + Join(b, sep)
    decreases |a|
  {
    if |a| == 1 {
      assert (a + b)[1..] == b;
    } else {
      assert (a + b)[1..] == a[1..] + b;
      JoinConcat(a[1..], b, sep);
    }
  }

  lemma SplitConcat<T>(a: seq<T>, b: seq<T>, sep: T)
    ensures Split(a + [sep] + b, sep) == Split(a, sep) + Split(b, sep)
  {
    hide Split, Join;
    JoinSplit(a, sep);
    JoinSplit(b, sep);
    JoinConcat(Split(a, sep), Split(b, sep), sep);
    SplitJoin(Split(a, sep) + Split(b, sep), sep);
  }

  /** Joining a proper prefix of the parts of s is cutting s at one of its separators. */
  lemma CutOfParts<T>(s: seq<T>, sep: T, i: nat) returns (k: nat)
    requires 1 <= i < |Split(s, sep)|
    ensures k < |s| && s[k] == sep && Join(Split(s, sep)[..i], sep) == s[..k]
  {
    var parts := Split(s, sep);
    JoinSplit(s, sep);
    hide Split, Join;
    JoinConcat(parts[..i], parts[i..], sep);
    assert parts == parts[..i] + parts[i..];
    k := |Join(parts[..i], sep)|;
  }

  /** Every cut at a separator keeps a proper prefix of the parts. */
  lemma PartsOfCut<T>(s: seq<T>, sep: T, k: nat) returns (i: nat)
    requires k < |s| && s[k] == sep
    ensures 1 <= i < |Split(s, sep)| && Split(s[..k], sep) == Split(s, sep)[..i]
  {
    hide Split;
    SplitConcat(s[..k], s[k + 1..], sep);
    assert s == s[..k] + [sep] + s[k + 1..];
    i := |Split(s[..k], sep)|;
  }

  function Count<T(==)>(s: seq<T>, x: T): nat {
    if s == [] then 0 else (if s[0] == x then 1 else 0) + Count(s[1..], x)
  }

  lemma {:induction false} CountConcat<T>(a: seq<T>, b: seq<T>, x: T)
    ensures Count(a + b, x) == Count(a, x) + Count(b, x)
  {
    if a == [] {
      assert a + b == b;
    } else {
      assert (a + b)[1..] == a[1..] + b;
      CountConcat(a[1..], b, x);
    }
  }

  /** White space, in ASCII and beyond. */
  predicate IsSpace(c: CodePoint) {
    || 9 <= c <= 13 || 28 <= c <= 32 || c == 0x85 || c == 0xA0 || c == 0x1680 || 0x2000 <= c <= 0x200A
    || c == 0x2028 || c == 0x2029 || c == 0x202F || c == 0x205F || c == 0x3000
  }

  // ---------------------------------------------------------------- UTF-8 (RFC 3629)

  predicate Encodable(t: Text) {
    forall c <- t :: !(0xD800 <= c <= 0xDFFF)
  }

  /** What can be encoded is a sequence of scalar values: no surrogates. */
  lemma EncodableMeansScalars(t: Text)
    ensures Encodable(t) <==> forall i | 0 <= i < |t| :: t[i] < 0xD800 || 0xE000 <= t[i]
  {
    assert forall i | 0 <= i < |t| :: t[i] in t;
  }

  function Utf8Of(c: CodePoint): (b: Bytes)
    ensures 1 <= |b| <= 4
  {
    if c < 0x80 then [c]
    else if c < 0x800 then [0xC0 + c / 64, 0x80 + c % 64]
    else if c < 0x1_0000 then [0xE0 + c / 4096, 0x80 + c / 64 % 64, 0x80 + c % 64]
    else [0xF0 + c / 262144, 0x80 + c / 4096 % 64, 0x80 + c / 64 % 64, 0x80 + c % 64]
  }

  function Utf8(t: Text): (b: Bytes)
    ensures |b| >= |t|
  {
    if t == [] then [] else Utf8Of(t[0]) + Utf8(t[1..])
  }

  lemma {:induction false} Utf8Concat(a: Text, b: Text)
    ensures Utf8(a + b) == Utf8(a) + Utf8(b)
  {
    if a == [] {
      assert a + b == b;
    } else {
      assert (a + b)[1..] == a[1..] + b;
      Utf8Concat(a[1..], b);
    }
  }

  function Width(first: Byte): (n: nat)
    ensures 1 <= n <= 4
  {
    if first < 0x80 then 1 else if first < 0xE0 then 2 else if first < 0xF0 then 3 else 4
  }

  lemma Utf8OfWidth(c: CodePoint)
    ensures |Utf8Of(c)| == Width(Utf8Of(c)[0])
  {
  }

  function Scalar(b: seq<int>): int
    requires 1 <= |b| <= 4
  {
    match |b|
    case 1 => b[0]
    case 2 => (b[0] - 0xC0) * 64 + (b[1] - 0x80)
    case 3 => (b[0] - 0xE0) * 4096 + (b[1] - 0x80) * 64 + (b[2] - 0x80)
    case _ => (b[0] - 0xF0) * 262144 + (b[1] - 0x80) * 4096 + (b[2] - 0x80) * 64 + (b[3] - 0x80)
  }

  lemma Digits(c: nat)
    ensures c == c / 4096 * 4096 + c / 64 % 64 * 64 + c % 64
    ensures c == c / 262144 * 262144 + c / 4096 % 64 * 4096 + c / 64 % 64 * 64 + c % 64
  {
    assert c / 4096 == c / 64 / 64;
    assert c / 262144 == c / 64 / 64 / 64;
  }

  lemma ScalarOfUtf8(c: CodePoint)
    ensures Scalar(Utf8Of(c)) == c
  {
    Digits(c);
  }

  /** The encoding of one code point is read back from any stream it starts. */
  lemma Utf8OfPrefixFree(c: CodePoint, d: CodePoint, x: Bytes, y: Bytes)
    requires Utf8Of(c) + x == Utf8Of(d) + y
    ensures c == d && x == y
  {
    var s, b, e := Utf8Of(c) + x, Utf8Of(c), Utf8Of(d);
    assert b[0] == s[0] == e[0];
    Utf8OfWidth(c);
    Utf8OfWidth(d);
    assert b == s[..|b|] == e;
    assert x == s[|b|..] == y;
    ScalarOfUtf8(c);
    ScalarOfUtf8(d);
  }

  lemma {:induction false} Utf8Injective(a: Text, b: Text)
    requires Utf8(a) == Utf8(b)
    ensures a == b
  {
    if a != [] && b != [] {
      Utf8OfPrefixFree(a[0], b[0], Utf8(a[1..]), Utf8(b[1..]));
      Utf8Injective(a[1..], b[1..]);
      assert a == [a[0]] + a[1..] && b == [b[0]] + b[1..];
    }
  }

  // ---------------------------------------------------------------- lexicographic order

  predicate Before(a: seq<nat>, b: seq<nat>) {
    b != [] && (a == [] || a[0] < b[0] || (a[0] == b[0] && Before(a[1..], b[1..])))
  }

  lemma {:induction false} BeforeTotal(a: seq<nat>, b: seq<nat>)
    ensures Before(a, b) || a == b || Before(b, a)
    ensures !(Before(a, b) && Before(b, a)) && !Before(a, a)
  {
    if a != [] && b != [] {
      BeforeTotal(a[1..], b[1..]);
      BeforeTotal(a[1..], a[1..]);
      assert a == [a[0]] + a[1..] && b == [b[0]] + b[1..];
    } else if a != [] {
      BeforeTotal(a[1..], a[1..]);
    }
  }

  lemma {:induction false} BeforeTransitive(a: seq<nat>, b: seq<nat>, c: seq<nat>)
    requires Before(a, b) && Before(b, c)
    ensures Before(a, c)
  {
    if a != [] && a[0] == b[0] == c[0] {
      BeforeTransitive(a[1..], b[1..], c[1..]);
    }
  }
}
