/**
 * The `pretty_index` key: a heap-allocated demangled type name together with
 * the operations a standard container needs from a key, `name`, `hash_code`
 * and the six comparison operators, all defined through `strcmp` and
 * MurmurHashNeutral2.
 *
 * `strcmp` is modelled as the C library defines it: the first pair of
 * differing characters, compared as unsigned bytes, decides, and the
 * terminating NUL (a missing character here) compares below every other
 * byte.  Lexicographic order is defined a second time, independently,
 * through the longest common prefix, and the operators are proved against
 * that definition.
 */
module TypeKey {
  import opened Wrappers
  import opened CStrings
  import opened Buffers
  import opened Demangling
  import opened Murmur
  import MurmurExamples

  /** The byte at index `i` of the C string `s`, or the terminating NUL past its end. */
  function ByteOf(s: seq<char>, i: nat): (c: int)
    requires IsCString(s)
    ensures 0 <= c < 256 && (c == 0 <==> i >= |s|)
  {
    if i < |s| then s[i] as int else 0
  }

  /** `strcmp(a, b)`: the difference of the first differing bytes, 0 when there is none. */
  function StrCmp(a: seq<char>, b: seq<char>): (r: int)
    requires IsCString(a) && IsCString(b)
    ensures r == 0 <==> a == b
    decreases |a|
  {
    if |a| == 0 || |b| == 0 || a[0] != b[0] then
      ByteOf(a, 0) - ByteOf(b, 0)
    else
      assert a == [a[0]] + a[1..] && b == [b[0]] + b[1..];
      StrCmp(a[1..], b[1..])
  }

  /** The length of the longest common prefix of `a` and `b`. */
  function CommonPrefix(a: seq<char>, b: seq<char>): (n: nat)
    ensures n <= |a| && n <= |b| && a[..n] == b[..n]
    ensures n < |a| && n < |b| ==> a[n] != b[n]
    decreases |a|
  {
    if |a| == 0 || |b| == 0 || a[0] != b[0] then 0
    else
      var m := CommonPrefix(a[1..], b[1..]);
      assert a[..m + 1] == [a[0]] + a[1..][..m] && b[..m + 1] == [b[0]] + b[1..][..m];
      m + 1
  }

  /** Lexicographic order: `a` is a proper prefix of `b`, or is smaller at the first difference. */
  predicate LexLess(a: seq<char>, b: seq<char>)
  {
    var n := CommonPrefix(a, b);
    n < |b| && (n == |a| || a[n] < b[n])
  }

  /** The common prefix is the one place where the strings agree up to and differ (or end) at. */
  lemma {:induction false} CommonPrefixIs(a: seq<char>, b: seq<char>, k: nat)
    requires k <= |a| && k <= |b| && a[..k] == b[..k]
    requires k < |a| && k < |b| ==> a[k] != b[k]
    ensures CommonPrefix(a, b) == k
  {
    var n := CommonPrefix(a, b);
    forall i | 0 <= i < k ensures a[i] == b[i] {
      assert a[i] == a[..k][i] && b[i] == b[..k][i];
    }
    forall i | 0 <= i < n ensures a[i] == b[i] {
      assert a[i] == a[..n][i] && b[i] == b[..n][i];
    }
  }

  lemma {:induction false} CommonPrefixSymmetric(a: seq<char>, b: seq<char>)
    ensures CommonPrefix(a, b) == CommonPrefix(b, a)
  {
    CommonPrefixIs(b, a, CommonPrefix(a, b));
  }

  /** `strcmp` is negative exactly when its first argument comes first in lexicographic order. */
  lemma {:induction false} StrCmpLess(a: seq<char>, b: seq<char>)
    requires IsCString(a) && IsCString(b)
    ensures StrCmp(a, b) < 0 <==> LexLess(a, b)
    decreases |a|
  {
    if |a| == 0 || |b| == 0 || a[0] != b[0] {
      assert CommonPrefix(a, b) == 0;
    } else {
      StrCmpLess(a[1..], b[1..]);
      var m := CommonPrefix(a[1..], b[1..]);
      assert CommonPrefix(a, b) == m + 1;
      assert m < |a[1..]| ==> a[m + 1] == a[1..][m];
      assert m < |b[1..]| ==> b[m + 1] == b[1..][m];
    }
  }

  /** Swapping the arguments of `strcmp` negates the result. */
  lemma {:induction false} StrCmpSwap(a: seq<char>, b: seq<char>)
    requires IsCString(a) && IsCString(b)
    ensures StrCmp(b, a) == -StrCmp(a, b)
    decreases |a|
  {
    if |a| > 0 && |b| > 0 && a[0] == b[0] {
      StrCmpSwap(a[1..], b[1..]);
    }
  }

  /** Exactly one of `a < b`, `a == b`, `b < a` holds in lexicographic order. */
  lemma {:induction false} LexTrichotomy(a: seq<char>, b: seq<char>)
    ensures LexLess(a, b) || a == b || LexLess(b, a)
    ensures !(LexLess(a, b) && a == b) && !(LexLess(b, a) && a == b) && !(LexLess(a, b) && LexLess(b, a))
  {
    CommonPrefixSymmetric(a, b);
    var n := CommonPrefix(a, b);
    if n == |a| && n == |b| {
      assert a == a[..n] == b[..n] == b;
    }
    if a == b {
      CommonPrefixIs(a, b, |a|);
    }
  }

  /** Lexicographic order is transitive. */
  lemma {:induction false} LexTransitive(a: seq<char>, b: seq<char>, c: seq<char>)
    requires LexLess(a, b) && LexLess(b, c)
    ensures LexLess(a, c)
  {
    var n1 := CommonPrefix(a, b);
    var n2 := CommonPrefix(b, c);
    var n := if n1 < n2 then n1 else n2;
    assert a[..n] == b[..n] by {
      assert a[..n] == a[..n1][..n] && b[..n] == b[..n1][..n];
    }
    assert b[..n] == c[..n] by {
      assert b[..n] == b[..n2][..n] && c[..n] == c[..n2][..n];
    }
    if n1 < n2 {
      assert b[n1] == b[..n2][n1] == c[..n2][n1] == c[n1];
    } else if n2 < n1 {
      assert a[n2] == a[..n1][n2] == b[..n1][n2] == b[n2];
    }
    CommonPrefixIs(a, c, n);
  }

  /** No string comes before itself. */
  lemma {:induction false} LexIrreflexive(a: seq<char>)
    ensures !LexLess(a, a)
  {
    CommonPrefixIs(a, a, |a|);
  }

  /**
   * `static_cast<int>` of a `size_t` length: the value modulo 2^32 read as a
   * two's-complement 32-bit integer (the conversion C++20 prescribes and
   * common compilers perform).
   */
  function CastToInt(n: nat): (r: int)
    ensures -0x8000_0000 <= r < 0x8000_0000 && (n - r) % 0x1_0000_0000 == 0
    ensures n < 0x8000_0000 ==> r == n
    ensures 0 <= r ==> r <= n
  {
    var w := n % 0x1_0000_0000;
    if w < 0x8000_0000 then w else w - 0x1_0000_0000
  }

  /** The bytes of a C string, each character read as an `unsigned char`. */
  function Bytes(s: seq<char>): (b: seq<bv8>)
    requires IsCString(s)
    ensures |b| == |s|
  {
    seq(|s|, i requires 0 <= i < |s| => s[i] as int as bv8)
  }

  /**
   * MurmurHashNeutral2(data, len, 0) for a `len` obtained by a cast to `int`:
   * a length that is not negative hashes the first `len` bytes; a negative
   * `len` skips the block loop and the tail, so the key is not read and the
   * result is the hash of the empty key under the seed `0 ^ len` (with `len`
   * converted back to `unsigned int`).
   */
  function HashWithLen(key: seq<bv8>, len: int): (h: bv32)
    requires -0x8000_0000 <= len <= |key| && len < 0x8000_0000
    ensures 0 <= len ==> h == Hash(key[..len], 0)
    ensures len < 0 ==> h == Hash([], (len + 0x1_0000_0000) as bv32)
  {
    if len >= 0 then Hash(key[..len], 0)
    else Avalanche(0 ^ ((len + 0x1_0000_0000) as bv32))
  }

  /** A key of a `std::unordered_map` or a `std::map`: the demangled name of a type. */
  class PrettyIndex {
    /** The text of the owned NUL-terminated buffer. */
    var data: seq<char>

    /** The stored name is a C string. */
    predicate Valid()
      reads this
    {
      IsCString(data)
    }

    /** Takes ownership of the buffer `buf` that `demangle` produced. */
    constructor (buf: array<char>, ghost s: seq<char>)
      requires Holds(buf, s)
      ensures Valid() && data == s
    {
      var n := StrLen(buf, 0, s);
      var text := buf[..n];
      assert text == s;
      data := text;
    }

    /** `name()`: the stored demangled name. */
    function Name(): (r: seq<char>)
      reads this
      requires Valid()
      ensures IsCString(r) && r == data
    {
      data
    }

    /** `hash_code()`: MurmurHashNeutral2 over the `(int)strlen` bytes of the name, seed 0, widened to `size_t`. */
    function HashCode(): (r: nat)
      reads this
      requires Valid()
      ensures r < 0x1_0000_0000
    {
      HashWithLen(Bytes(data), CastToInt(|data|)) as nat
    }

    /** `operator==`: `strcmp` returns 0. */
    function Eq(rhs: PrettyIndex): (r: bool)
      reads this, rhs
      requires Valid() && rhs.Valid()
      ensures r <==> data == rhs.data
    {
      StrCmp(data, rhs.data) == 0
    }

    /** `operator!=`: the negation of `==`. */
    function Ne(rhs: PrettyIndex): (r: bool)
      reads this, rhs
      requires Valid() && rhs.Valid()
      ensures r <==> data != rhs.data
    {
      !Eq(rhs)
    }

    /** `operator<`: `strcmp` is negative. */
    function Lt(rhs: PrettyIndex): (r: bool)
      reads this, rhs
      requires Valid() && rhs.Valid()
      ensures r <==> LexLess(data, rhs.data)
    {
      StrCmpLess(data, rhs.data);
      StrCmp(data, rhs.data) < 0
    }

    /** `operator<=`: not `rhs < *this`. */
    function Le(rhs: PrettyIndex): (r: bool)
      reads this, rhs
      requires Valid() && rhs.Valid()
      ensures r <==> LexLess(data, rhs.data) || data == rhs.data
    {
      LexTrichotomy(data, rhs.data);
      !rhs.Lt(this)
    }

    /** `operator>`: `rhs < *this`. */
    function Gt(rhs: PrettyIndex): (r: bool)
      reads this, rhs
      requires Valid() && rhs.Valid()
      ensures r <==> LexLess(rhs.data, data)
      ensures r ==> data != rhs.data
    {
      LexTrichotomy(data, rhs.data);
      rhs.Lt(this)
    }

    /** `operator>=`: not `*this < rhs`. */
    function Ge(rhs: PrettyIndex): (r: bool)
      reads this, rhs
      requires Valid() && rhs.Valid()
      ensures r <==> LexLess(rhs.data, data) || data == rhs.data
    {
      LexTrichotomy(data, rhs.data);
      !Lt(rhs)
    }
  }

  /**
   * Constructing a key from the name `std::type_info::name()` returns and
   * what `__cxa_demangle` made of it: the `runtime_error` that `demangle`
   * throws becomes an `Err`.
   */
  method FromTypeName(vendor: Vendor, flags: Flags, name: seq<char>, cxa: CxaOutcome) returns (r: Result<PrettyIndex, Error>)
    requires IsCString(name) && (cxa.status == 0 ==> IsCString(cxa.text))
    ensures Demangle(vendor, flags, name, cxa).Err? ==> r == Err(Demangle(vendor, flags, name, cxa).error)
    ensures Demangle(vendor, flags, name, cxa).Ok? ==>
              r.Ok? && fresh(r.value) && r.value.Valid() && r.value.data == Demangle(vendor, flags, name, cxa).value
  {
    var buf := DemangleName(vendor, flags, name, cxa);
    if buf.Err? {
      return Err(buf.error);
    }
    ghost var s := Demangle(vendor, flags, name, cxa).value;
    var key := new PrettyIndex(buf.value, s);
    return Ok(key);
  }

  /** Exactly one of `a < b`, `a == b`, `a > b` holds. */
  lemma {:induction false} Trichotomy(a: PrettyIndex, b: PrettyIndex)
    requires a.Valid() && b.Valid()
    ensures a.Lt(b) || a.Eq(b) || a.Gt(b)
    ensures !(a.Lt(b) && a.Eq(b)) && !(a.Gt(b) && a.Eq(b)) && !(a.Lt(b) && a.Gt(b))
  {
    LexTrichotomy(a.data, b.data);
  }

  /** `<` is a strict order: irreflexive and transitive, so `std::map` may use it. */
  lemma {:induction false} StrictOrder(a: PrettyIndex, b: PrettyIndex, c: PrettyIndex)
    requires a.Valid() && b.Valid() && c.Valid()
    ensures !a.Lt(a)
    ensures a.Lt(b) && b.Lt(c) ==> a.Lt(c)
  {
    LexIrreflexive(a.data);
    if a.Lt(b) && b.Lt(c) {
      LexTransitive(a.data, b.data, c.data);
    }
  }

  /** The derived operators agree with `<` and `==` as their names say. */
  lemma {:induction false} DerivedOperators(a: PrettyIndex, b: PrettyIndex)
    requires a.Valid() && b.Valid()
    ensures a.Le(b) <==> a.Lt(b) || a.Eq(b)
    ensures a.Ge(b) <==> b.Le(a)
    ensures a.Gt(b) <==> b.Lt(a)
  {
  }

  /** Keys that compare equal have the same hash code, as `std::unordered_map` requires. */
  lemma HashCoherent(a: PrettyIndex, b: PrettyIndex)
    requires a.Valid() && b.Valid()
    ensures a.Eq(b) ==> a.HashCode() == b.HashCode()
  {
  }

  /** A name shorter than 2^31 bytes is hashed whole, with `len` its length. */
  lemma {:induction false} HashCodeOfShortName(p: PrettyIndex)
    requires p.Valid() && |p.data| < 0x8000_0000
    ensures p.HashCode() == Hash(Bytes(p.data), 0) as nat
  {
    assert Bytes(p.data)[..|p.data|] == Bytes(p.data);
  }

  /**
   * A name of 2^31 to 2^32 - 1 bytes gets a negative `len`: none of its
   * bytes enter the hash, only its length does.
   */
  lemma {:induction false} HashCodeOfLongName(p: PrettyIndex)
    requires p.Valid() && 0x8000_0000 <= |p.data| < 0x1_0000_0000
    ensures p.HashCode() == Avalanche(|p.data| as bv32) as nat
  {
    var len := CastToInt(|p.data|);
    assert len == |p.data| - 0x1_0000_0000;
    assert 0 ^ ((len + 0x1_0000_0000) as bv32) == |p.data| as bv32;
  }

  /** The key of `int` hashes to 0xda41e7a3. */
  lemma {:induction false} HashCodeOfInt(p: PrettyIndex)
    requires p.data == "int"
    ensures p.Valid() && p.HashCode() == 0xda41e7a3
  {
    assert Bytes(p.data) == [0x69, 0x6e, 0x74];
    HashCodeOfShortName(p);
    MurmurExamples.HashOfInt();
  }
}
