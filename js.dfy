/** The JavaScript values and built-in operations that the screens depend on:
    truthiness, `||`, property access, `typeof … === 'object'`, `String(…)`,
    white space as `trim()` and the regular-expression class `\s` see it, and
    `Array.prototype.map` / `filter` over lists. */
module Js {

  /** The outcome of an expression that may throw, or of an awaited promise
      (fulfilled with a value, or rejected). */
  datatype Completion<+T> = Normal(value: T) | Thrown

  datatype Option<+T> = None | Some(value: T)

  /** A JSON-shaped JavaScript value. Numbers are restricted to integers. */
  datatype Value =
    | Undefined
    | Null
    | Bool(b: bool)
    | Num(n: int)
    | Text(s: string)
    | Arr(elems: seq<Value>)
    | Obj(props: map<string, Value>)

  /** JavaScript truthiness: `undefined`, `null`, `false`, `0` and `""` are falsy. */
  predicate Truthy(v: Value) {
    match v
    case Undefined => false
    case Null => false
    case Bool(b) => b
    case Num(n) => n != 0
    case Text(s) => s != ""
    case Arr(_) => true
    case Obj(_) => true
  }

  /** `typeof v === 'object'`, which holds of `null` as well as of arrays and objects. */
  predicate IsObjectType(v: Value) {
    v.Null? || v.Arr? || v.Obj?
  }

  /** `a || b`: the left operand when it is truthy, otherwise the right one. */
  function Or(a: Value, b: Value): (r: Value)
    ensures Truthy(a) ==> r == a
    ensures !Truthy(a) ==> r == b
    ensures Truthy(r) <==> Truthy(a) || Truthy(b)
  {
    if Truthy(a) then a else b
  }

  /** `v?.key` for the property names the screens read (`id`, `user_id`,
      `userId`), which no primitive and no array carries. */
  function OptionalProp(v: Value, key: string): (r: Value)
    ensures !v.Obj? ==> r == Undefined
    ensures v.Obj? && key !in v.props ==> r == Undefined
    ensures v.Obj? && key in v.props ==> r == v.props[key]
  {
    match v
    case Obj(props) => if key in props then props[key] else Undefined
    case _ => Undefined
  }

  /** `v.key`: reading a property of `null` or `undefined` throws a TypeError. */
  function Prop(v: Value, key: string): (r: Completion<Value>)
    ensures r.Thrown? <==> v.Null? || v.Undefined?
    ensures r.Normal? ==> r.value == OptionalProp(v, key)
  {
    if v.Null? || v.Undefined? then Thrown else Normal(OptionalProp(v, key))
  }

  // ---------------------------------------------------------------------
  // String(v)
  // ---------------------------------------------------------------------

  function DigitChar(d: nat): (c: char)
    requires d < 10
    ensures '0' <= c <= '9'
  {
    ('0' as int + d) as char
  }

  /** The decimal numeral of a natural number, most significant digit first. */
  function DecimalDigits(n: nat): (r: string)
    ensures 1 <= |r|
    ensures forall i | 0 <= i < |r| :: '0' <= r[i] <= '9'
    ensures r[|r| - 1] == DigitChar(n % 10)
    ensures n < 10 <==> |r| == 1
  {
    if n < 10 then [DigitChar(n)] else DecimalDigits(n / 10) + [DigitChar(n % 10)]
  }

  /** `String(n)` for an integer `n` (below 10^21 in magnitude, where
      JavaScript switches to exponent notation). */
  function NumberToString(n: int): string {
    if n < 0 then "-" + DecimalDigits(-n) else DecimalDigits(n)
  }

  /** `String(v)`. */
  function ToJsString(v: Value): string
    decreases v, if v.Arr? then |v.elems| + 1 else 0
  {
    match v
    case Undefined => "undefined"
    case Null => "null"
    case Bool(b) => if b then "true" else "false"
    case Num(n) => NumberToString(n)
    case Text(s) => s
    case Arr(elems) => JoinElements(v, 0)
    case Obj(_) => "[object Object]"
  }

  /** `array.join(",")` from index `i` on, as `String(array)` uses it: `null`
      and `undefined` elements print as the empty string. */
  function JoinElements(a: Value, i: nat): string
    requires a.Arr? && i <= |a.elems|
    decreases a, |a.elems| - i
  {
    if i == |a.elems| then ""
    else
      var e := a.elems[i];
      var piece := if e.Null? || e.Undefined? then "" else ToJsString(e);
      if i + 1 == |a.elems| then piece else piece + "," + JoinElements(a, i + 1)
  }

  /** Two numerals are equal only for equal numbers. */
  lemma {:induction false} DecimalDigitsInjective(a: nat, b: nat)
    requires DecimalDigits(a) == DecimalDigits(b)
    ensures a == b
  {
    var da, db := DecimalDigits(a), DecimalDigits(b);
    assert DigitChar(a % 10) == DigitChar(b % 10);
    if a >= 10 {
      assert b >= 10;
      assert DecimalDigits(a / 10) == da[..|da| - 1] == db[..|db| - 1] == DecimalDigits(b / 10);
      DecimalDigitsInjective(a / 10, b / 10);
    }
  }

  /** Distinct integers print differently. */
  lemma NumberToStringInjective(a: int, b: int)
    requires NumberToString(a) == NumberToString(b)
    ensures a == b
  {
    var sa, sb := NumberToString(a), NumberToString(b);
    assert sa[0] == '-' <==> a < 0;
    assert sb[0] == '-' <==> b < 0;
    if a < 0 {
      assert DecimalDigits(-a) == sa[1..] == sb[1..] == DecimalDigits(-b);
      DecimalDigitsInjective(-a, -b);
    } else {
      DecimalDigitsInjective(a, b);
    }
  }

  // ---------------------------------------------------------------------
  // White space and trim()
  // ---------------------------------------------------------------------

  /** A code point in ECMAScript's WhiteSpace or LineTerminator productions:
      the characters `trim()` removes and the regular-expression class `\s`
      matches. */
  predicate IsSpace(c: char) {
    var n := c as int;
    || 9 <= n <= 13        // tab, line feed, vertical tab, form feed, carriage return
    || n == 0x20 || n == 0xA0 || n == 0x1680
    || 0x2000 <= n <= 0x200A
    || n == 0x2028 || n == 0x2029 || n == 0x202F || n == 0x205F
    || n == 0x3000 || n == 0xFEFF
  }

  predicate AllSpace(s: string) {
    forall i | 0 <= i < |s| :: IsSpace(s[i])
  }

  /** The number of white-space characters at the start of `s`. */
  function LeadingSpace(s: string): (n: nat)
    ensures n <= |s|
    ensures AllSpace(s[..n])
    ensures n < |s| ==> !IsSpace(s[n])
  {
    if s != [] && IsSpace(s[0]) then
      var k := LeadingSpace(s[1..]);
      assert s[..k + 1] == [s[0]] + s[1..][..k];
      k + 1
    else 0
  }

  /** The length of `s` without its trailing white space. */
  function TrailingStart(s: string): (n: nat)
    ensures n <= |s|
    ensures AllSpace(s[n..])
    ensures n > 0 ==> !IsSpace(s[n - 1])
  {
    if s != [] && IsSpace(s[|s| - 1]) then
      var k := TrailingStart(s[..|s| - 1]);
      assert s[k..] == s[..|s| - 1][k..] + [s[|s| - 1]];
      k
    else |s|
  }

  /** `s.trim()`. */
  function Trim(s: string): (r: string)
    ensures |r| <= |s|
    ensures r == [] <==> AllSpace(s)
    ensures r != [] ==> !IsSpace(r[0]) && !IsSpace(r[|r| - 1])
  {
    var a := LeadingSpace(s);
    var t := s[a..];
    var b := TrailingStart(t);
    assert b == 0 ==> AllSpace(s) by {
      if b == 0 {
        forall i | 0 <= i < |s| ensures IsSpace(s[i]) {
          assert s[..a][i] == s[i];
        }
      }
    }
    t[..b]
  }

  /** `trim()` only cuts white space off both ends: `s` is the trimmed text
      with white space before and after it. */
  lemma TrimCutsOnlySpace(s: string)
    ensures exists a, b | 0 <= a <= b <= |s| ::
      s[a..b] == Trim(s) && AllSpace(s[..a]) && AllSpace(s[b..])
  {
    var a := LeadingSpace(s);
    var t := s[a..];
    var b := TrailingStart(t);
    assert s[a..a + b] == t[..b] == Trim(s);
    assert s[a + b..] == t[b..];
  }

  /** Trimming twice is trimming once. */
  lemma TrimIdempotent(s: string)
    ensures Trim(Trim(s)) == Trim(s)
  {
    var r := Trim(s);
    if r != [] {
      assert LeadingSpace(r) == 0;
      assert TrailingStart(r) == |r|;
    }
  }

  // ---------------------------------------------------------------------
  // Array.prototype.map and filter
  // ---------------------------------------------------------------------

  /** `s.map(f)`. */
  function Map<A, B>(s: seq<A>, f: A -> B): (r: seq<B>)
    ensures |r| == |s|
    ensures forall i | 0 <= i < |s| :: r[i] == f(s[i])
  {
    if s == [] then [] else [f(s[0])] + Map(s[1..], f)
  }

  /** `s.map(f)` where `f` may throw: the first throw ends the whole map,
      as it also rejects `Promise.all` over the mapped promises. */
  function MapOrThrow<A, B>(s: seq<A>, f: A -> Completion<B>): (r: Completion<seq<B>>)
    ensures r.Normal? <==> forall i | 0 <= i < |s| :: f(s[i]).Normal?
    ensures r.Normal? ==> |r.value| == |s|
    ensures r.Normal? ==> forall i | 0 <= i < |s| :: f(s[i]) == Normal(r.value[i])
  {
    if s == [] then Normal([])
    else match f(s[0])
      case Thrown => Thrown
      case Normal(x) =>
        match MapOrThrow(s[1..], f)
        case Thrown => Thrown
        case Normal(xs) => Normal([x] + xs)
  }

  /** `s.filter(keep)`. */
  function Filter<T(!new)>(s: seq<T>, keep: T -> bool): (r: seq<T>)
    ensures |r| <= |s|
    ensures forall x :: x in r <==> x in s && keep(x)
  {
    if s == [] then []
    else
      var rest := Filter(s[1..], keep);
      assert forall x :: x in s <==> x == s[0] || x in s[1..];
      if keep(s[0]) then [s[0]] + rest else rest
  }

  /** Filtering keeps relative order: it distributes over concatenation. */
  lemma {:induction false} FilterAppend<T(!new)>(a: seq<T>, b: seq<T>, keep: T -> bool)
    ensures Filter(a + b, keep) == Filter(a, keep) + Filter(b, keep)
  {
    if a == [] {
      assert a + b == b;
    } else {
      assert (a + b)[0] == a[0];
      assert (a + b)[1..] == a[1..] + b;
      FilterAppend(a[1..], b, keep);
    }
  }

  /** A list whose every element is kept is left as it is. */
  lemma {:induction false} FilterKeepsAll<T(!new)>(s: seq<T>, keep: T -> bool)
    requires forall i | 0 <= i < |s| :: keep(s[i])
    ensures Filter(s, keep) == s
  {
    if s != [] {
      FilterKeepsAll(s[1..], keep);
    }
  }

  /** Filtering twice with the same test is filtering once. */
  lemma FilterIdempotent<T(!new)>(s: seq<T>, keep: T -> bool)
    ensures Filter(Filter(s, keep), keep) == Filter(s, keep)
  {
    var r := Filter(s, keep);
    forall i | 0 <= i < |r| ensures keep(r[i]) {
      assert r[i] in r;
    }
    FilterKeepsAll(r, keep);
  }

  /** Filters with two tests that agree on every element give the same list. */
  lemma {:induction false} FilterCongruent<T(!new)>(s: seq<T>, keep: T -> bool, keep': T -> bool)
    requires forall i | 0 <= i < |s| :: keep(s[i]) == keep'(s[i])
    ensures Filter(s, keep) == Filter(s, keep')
  {
    if s != [] {
      FilterCongruent(s[1..], keep, keep');
    }
  }

  /** A filter and its complement split a list: their lengths add up to it. */
  lemma {:induction false} FilterPartition<T(!new)>(s: seq<T>, keep: T -> bool)
    ensures |Filter(s, keep)| + |Filter(s, x => !keep(x))| == |s|
  {
    if s != [] {
      FilterPartition(s[1..], keep);
    }
  }
}
