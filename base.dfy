/** Shared vocabulary of the model: optional values and results, the
    JavaScript values that content parameters are made of, and the few
    array and string operations of the JavaScript runtime that the
    widget relies on (findIndex, filter, splice, indexOf/replace, join,
    number-to-string conversion). */
module Base {

  /** `None` stands for JavaScript's `null` or `undefined` where the two
      are treated alike (the `??` operator). */
  datatype Option<+T> = None | Some(value: T) {
    function GetOr(default: T): T {
      match this
      case Some(v) => v
      case None => default
    }
  }

  /** `Err` stands for an exception thrown by the JavaScript runtime. */
  datatype Result<+T> = Ok(value: T) | Err(error: string)

  /** A JavaScript value as it occurs in content parameters. `Obj` is a plain
      object (its constructor is `Object`) with its own enumerable properties;
      `Other` is any other object (a function, a class instance), told apart
      by a tag. Numbers are reals; NaN is not part of the model. */
  datatype Value =
    | Undefined
    | Null
    | Bool(b: bool)
    | Num(n: real)
    | Str(s: string)
    | Arr(elems: seq<Value>)
    | Obj(props: map<string, Value>)
    | Other(tag: nat)

  /** JavaScript truthiness. */
  predicate Truthy(v: Value) {
    match v
    case Undefined => false
    case Null => false
    case Bool(b) => b
    case Num(n) => n != 0.0
    case Str(s) => s != ""
    case _ => true
  }

  /** `v == null` in JavaScript: null or undefined. */
  predicate Nullish(v: Value) {
    v.Undefined? || v.Null?
  }

  /** Reading a property of a plain object: a missing key reads as undefined. */
  function Get(m: map<string, Value>, key: string): Value {
    if key in m then m[key] else Undefined
  }

  /** Reading a property of a non-nullish value. Only plain objects carry
      the properties the widget reads; on every other value they read as
      undefined. */
  function Prop(v: Value, key: string): Value
    requires !Nullish(v)
  {
    if v.Obj? then Get(v.props, key) else Undefined
  }

  /** A destructured option `{ flag = true }` later compared with `=== true`:
      undefined takes the default `true`; any value other than `true` is off. */
  predicate FlagDefaultTrue(v: Value) {
    v == Undefined || v == Bool(true)
  }

  // ---------------------------------------------------------------------
  // Arrays

  /** `Array.prototype.findIndex` over a key: the first index whose element has
      key `k`, or -1. */
  function FindIndex<T, K(==)>(s: seq<T>, key: T -> K, k: K): (r: int)
    ensures -1 <= r < |s|
    ensures r == -1 <==> forall i :: 0 <= i < |s| ==> key(s[i]) != k
    ensures 0 <= r ==> key(s[r]) == k && forall i :: 0 <= i < r ==> key(s[i]) != k
  {
    if s == [] then -1
    else if key(s[0]) == k then 0
    else
      var r := FindIndex(s[1..], key, k);
      assert forall i :: 1 <= i < |s| ==> s[i] == s[1..][i - 1];
      if r == -1 then -1 else r + 1
  }

  /** `s.filter((e) => key(e) !== k)`. */
  function RemoveAll<T(==), K(==)>(s: seq<T>, key: T -> K, k: K): (r: seq<T>)
    ensures forall y :: y in r ==> key(y) != k && y in s
  {
    if s == [] then [] else (if key(s[0]) == k then [] else [s[0]]) + RemoveAll(s[1..], key, k)
  }

  /** Filtering drops every occurrence of a matching element and keeps every
      occurrence of the others. */
  lemma {:induction false} RemoveAllCount<T, K>(s: seq<T>, key: T -> K, k: K, y: T)
    ensures multiset(RemoveAll(s, key, k))[y] == if key(y) == k then 0 else multiset(s)[y]
  {
    if s != [] {
      RemoveAllCount(s[1..], key, k, y);
      assert s == [s[0]] + s[1..];
    }
  }

  /** Filtering keeps the relative order: it distributes over concatenation. */
  lemma {:induction false} RemoveAllAppend<T, K>(a: seq<T>, b: seq<T>, key: T -> K, k: K)
    ensures RemoveAll(a + b, key, k) == RemoveAll(a, key, k) + RemoveAll(b, key, k)
  {
    if a != [] {
      var h := if key(a[0]) == k then [] else [a[0]];
      assert (a + b)[0] == a[0] && (a + b)[1..] == a[1..] + b;
      assert RemoveAll(a + b, key, k) == h + RemoveAll(a[1..] + b, key, k);
      assert RemoveAll(a, key, k) == h + RemoveAll(a[1..], key, k);
      RemoveAllAppend(a[1..], b, key, k);
    } else {
      assert a + b == b;
    }
  }

  /** Filtering out a key no element has changes nothing. */
  lemma {:induction false} RemoveAllAbsent<T, K>(s: seq<T>, key: T -> K, k: K)
    requires forall i :: 0 <= i < |s| ==> key(s[i]) != k
    ensures RemoveAll(s, key, k) == s
  {
    if s != [] {
      RemoveAllAbsent(s[1..], key, k);
    }
  }

  /** Pairwise distinct elements. */
  predicate Distinct<T(==)>(s: seq<T>) {
    forall i, j :: 0 <= i < j < |s| ==> s[i] != s[j]
  }

  lemma {:induction false} RemoveAllDistinct<T, K>(s: seq<T>, key: T -> K, k: K)
    requires Distinct(s)
    ensures Distinct(RemoveAll(s, key, k))
  {
    if s != [] {
      RemoveAllDistinct(s[1..], key, k);
      assert s[0] !in s[1..];
    }
  }

  /** The start position `Array.prototype.splice(start, ...)` works from on an
      array of length `len`: a negative start counts from the end, and the
      result is clamped to `0..len`. */
  function SpliceStart(len: nat, start: int): (k: nat)
    ensures k <= len
    ensures 0 <= start <= len ==> k == start
    ensures start > len ==> k == len
    ensures start < 0 && 0 <= start + len ==> k == start + len
    ensures start + len < 0 ==> k == 0
  {
    if start < 0 then (if len + start < 0 then 0 else len + start)
    else if start > len then len
    else start
  }

  /** `s.splice(k, 1)` on the array: what is left. */
  function RemoveAt<T>(s: seq<T>, k: nat): (r: seq<T>)
    requires k < |s|
    ensures |r| == |s| - 1
    ensures multiset(r) + multiset{s[k]} == multiset(s)
    ensures forall i :: 0 <= i < k ==> r[i] == s[i]
    ensures forall i :: k <= i < |r| ==> r[i] == s[i + 1]
  {
    assert s == s[..k] + [s[k]] + s[k + 1..];
    s[..k] + s[k + 1..]
  }

  /** `s.splice(k, 0, x)` on the array: `x` now sits at position `k`. */
  function InsertAt<T>(s: seq<T>, k: nat, x: T): (r: seq<T>)
    requires k <= |s|
    ensures |r| == |s| + 1 && r[k] == x
    ensures multiset(r) == multiset(s) + multiset{x}
    ensures forall i :: 0 <= i < k ==> r[i] == s[i]
    ensures forall i :: k < i < |r| ==> r[i] == s[i - 1]
    ensures k == |s| ==> r == s + [x]
  {
    assert s == s[..k] + s[k..];
    s[..k] + [x] + s[k..]
  }

  // ---------------------------------------------------------------------
  // Strings

  /** The decimal digit character of `d`. */
  function DigitChar(d: nat): char
    requires d < 10
  {
    (48 + d) as char
  }

  /** The decimal text of a natural number, as JavaScript's string conversion
      of a non-negative integer produces it. */
  function NatToString(n: nat): (s: string)
    ensures 1 <= |s|
    ensures 10 <= n ==> 2 <= |s|
    ensures forall i :: 0 <= i < |s| ==> '0' <= s[i] <= '9'
  {
    if n < 10 then [DigitChar(n)] else NatToString(n / 10) + [DigitChar(n % 10)]
  }

  /** The decimal text of an integer, with a leading minus sign if negative. */
  function IntToString(i: int): (s: string)
    ensures 1 <= |s|
  {
    if i < 0 then "-" + NatToString(-i) else NatToString(i)
  }

  /** Distinct numbers have distinct decimal texts. */
  lemma {:induction false} NatToStringInjective(a: nat, b: nat)
    requires NatToString(a) == NatToString(b)
    ensures a == b
  {
    var sa, sb := NatToString(a), NatToString(b);
    if a < 10 && b < 10 {
      assert sa[0] == DigitChar(a) && sb[0] == DigitChar(b);
    } else if 10 <= a && 10 <= b {
      assert sa == NatToString(a / 10) + [DigitChar(a % 10)];
      assert sb == NatToString(b / 10) + [DigitChar(b % 10)];
      assert sa[|sa| - 1] == DigitChar(a % 10) && sb[|sb| - 1] == DigitChar(b % 10);
      assert sa[..|sa| - 1] == NatToString(a / 10);
      assert sb[..|sb| - 1] == NatToString(b / 10);
      NatToStringInjective(a / 10, b / 10);
    }
  }

  /** The text of an integer starts with a minus sign exactly when it is negative. */
  lemma IntToStringSign(i: int)
    ensures IntToString(i)[0] == '-' <==> i < 0
  {
    if 0 <= i {
      assert '0' <= NatToString(i)[0];
    }
  }

  lemma IntToStringInjective(a: int, b: int)
    requires IntToString(a) == IntToString(b)
    ensures a == b
  {
    IntToStringSign(a);
    IntToStringSign(b);
    var sa, sb := IntToString(a), IntToString(b);
    if a < 0 && b < 0 {
      assert sa[1..] == NatToString(-a) && sb[1..] == NatToString(-b);
      NatToStringInjective(-a, -b);
    } else if 0 <= a && 0 <= b {
      NatToStringInjective(a, b);
    }
  }

  /** `pat` occurs in `s` at position `i`. */
  predicate OccursAt(s: string, pat: string, i: nat) {
    i + |pat| <= |s| && s[i..i + |pat|] == pat
  }

  /** An occurrence agrees with the pattern's first two characters. */
  lemma OccursAtStart(s: string, pat: string, i: nat)
    requires OccursAt(s, pat, i)
    ensures 0 < |pat| ==> s[i] == pat[0]
    ensures 1 < |pat| ==> s[i + 1] == pat[1]
  {
    if 0 < |pat| {
      assert s[i..i + |pat|][0] == s[i];
    }
    if 1 < |pat| {
      assert s[i..i + |pat|][1] == s[i + 1];
    }
  }

  /** `s.indexOf(pat, from)`: the first position at or after `from` where `pat`
      occurs, if any. */
  function FirstOccurrence(s: string, pat: string, from: nat): (r: Option<nat>)
    ensures r.Some? ==> from <= r.value && OccursAt(s, pat, r.value)
    ensures r.Some? ==> forall i :: from <= i < r.value ==> !OccursAt(s, pat, i)
    ensures r.None? ==> forall i :: from <= i ==> !OccursAt(s, pat, i)
    decreases |s| - from
  {
    if |s| < from + |pat| then None
    else if OccursAt(s, pat, from) then Some(from)
    else FirstOccurrence(s, pat, from + 1)
  }

  /** `s.replace(pat, rep)` with a string pattern: the first occurrence of
      `pat` is replaced by `rep` taken literally. */
  function ReplaceFirst(s: string, pat: string, rep: string): string {
    match FirstOccurrence(s, pat, 0)
    case None => s
    case Some(i) => s[..i] + rep + s[i + |pat|..]
  }

  /** What `replace` does: the text up to the first occurrence is kept, the
      occurrence is replaced, and the rest is kept. */
  lemma ReplaceFirstAt(s: string, pat: string, rep: string, i: nat)
    requires OccursAt(s, pat, i)
    requires forall j :: 0 <= j < i ==> !OccursAt(s, pat, j)
    ensures ReplaceFirst(s, pat, rep) == s[..i] + rep + s[i + |pat|..]
  {
    var r := FirstOccurrence(s, pat, 0);
    assert r.Some?;
    assert !(r.value < i) && !(i < r.value);
  }

  /** Without an occurrence the string is unchanged. */
  lemma ReplaceFirstAbsent(s: string, pat: string, rep: string)
    requires forall i: nat :: !OccursAt(s, pat, i)
    ensures ReplaceFirst(s, pat, rep) == s
  {
  }

  /** A position whose first two characters differ from the pattern's is no
      occurrence. */
  lemma NotOccursAt(s: string, pat: string, i: nat)
    requires i + 1 < |s| && 1 < |pat| && (s[i] != pat[0] || s[i + 1] != pat[1])
    ensures !OccursAt(s, pat, i)
  {
    if OccursAt(s, pat, i) {
      OccursAtStart(s, pat, i);
    }
  }

  /** Replacing in a text made of a prefix with no occurrence, the pattern and
      a rest replaces exactly that pattern. */
  lemma ReplaceFirstAfter(before: string, pat: string, after: string, rep: string)
    requires forall j :: 0 <= j < |before| ==> !OccursAt(before + pat + after, pat, j)
    ensures ReplaceFirst(before + pat + after, pat, rep) == before + rep + after
  {
    var s := before + pat + after;
    assert s[|before|..|before| + |pat|] == pat;
    assert s[..|before|] == before && s[|before| + |pat|..] == after;
    ReplaceFirstAt(s, pat, rep, |before|);
  }

  /** A stretch without the pattern's first character holds no occurrence. */
  lemma NoOccurrenceWithin(s: string, pat: string, lo: nat, hi: nat)
    requires lo <= hi <= |s| && 0 < |pat| && pat[0] !in s[lo..hi]
    ensures forall j :: lo <= j < hi ==> !OccursAt(s, pat, j)
  {
    forall j | lo <= j < hi ensures !OccursAt(s, pat, j) {
      assert s[lo..hi][j - lo] == s[j];
      if OccursAt(s, pat, j) {
        OccursAtStart(s, pat, j);
      }
    }
  }

  /** `Array.prototype.toString` on an array of strings: the elements joined
      with commas. */
  function JoinWithCommas(parts: seq<string>): string {
    if parts == [] then ""
    else if |parts| == 1 then parts[0]
    else parts[0] + "," + JoinWithCommas(parts[1..])
  }
}
