/** Vocabulary shared by all fingerprint scripts: optional values, the
    integer-rounded rectangle, the serialized-size budget, `slice(0, n)`,
    JavaScript's whitespace handling of class names and text, and the
    decimal rendering of counts that some scripts splice into strings. */
module Common {

  datatype Option<T> = None | Some(value: T)

  /** A rectangle as the scripts report it: `{x, y, w, h}` rounded to integers. */
  datatype Rect = Rect(x: int, y: int, w: int, h: int)
  {
    /** `rect.bottom` */
    function Bottom(): int { y + h }

    /** `rect.width === 0 || rect.height === 0`: the element takes no room. */
    predicate ZeroArea() { w == 0 || h == 0 }
  }

  /** The one serialized-size budget of the whole tool set (characters of JSON). */
  const Budget: nat := 20000

  /** `s.slice(0, n)`: the first `n` items, or all of them when there are fewer. */
  function Take<T>(s: seq<T>, n: nat): (r: seq<T>)
    ensures r <= s
    ensures |r| == if |s| < n then |s| else n
  {
    if |s| <= n then s else s[..n]
  }

  /** `xs.map(f)` */
  function Project<T, U>(xs: seq<T>, f: T -> U): (r: seq<U>)
    ensures |r| == |xs|
    ensures forall i :: 0 <= i < |xs| ==> r[i] == f(xs[i])
  {
    seq(|xs|, i requires 0 <= i < |xs| => f(xs[i]))
  }

  /** Every item's image is in the projection, and every member of the
      projection is the image of an item. */
  lemma ProjectMembers<T, U>(xs: seq<T>, f: T -> U)
    ensures forall x :: x in xs ==> f(x) in Project(xs, f)
    ensures forall y :: y in Project(xs, f) ==> exists x :: x in xs && y == f(x)
  {
    var r := Project(xs, f);
    forall x | x in xs ensures f(x) in r {
      var k :| 0 <= k < |xs| && xs[k] == x;
      assert r[k] == f(x);
    }
    forall y | y in r ensures exists x :: x in xs && y == f(x) {
      var k :| 0 <= k < |r| && r[k] == y;
      assert xs[k] in xs;
    }
  }

  lemma ProjectAppend<T, U>(xs: seq<T>, x: T, f: T -> U)
    ensures Project(xs + [x], f) == Project(xs, f) + [f(x)]
  {
  }

  /** `xs.map((x, i) => f(x, i + 1))`: each item turned into a record numbered from 1. */
  function Numbered<T, U>(xs: seq<T>, f: (T, nat) -> U): (r: seq<U>)
    ensures |r| == |xs|
    ensures forall i :: 0 <= i < |xs| ==> r[i] == f(xs[i], i + 1)
  {
    seq(|xs|, i requires 0 <= i < |xs| => f(xs[i], i + 1))
  }

  /** The push loop behind `Numbered`: each record is numbered by the length of
      the list before it, plus one. */
  method PushNumbered<T, U>(xs: seq<T>, f: (T, nat) -> U) returns (r: seq<U>)
    ensures r == Numbered(xs, f)
  {
    r := [];
    for i := 0 to |xs|
      invariant |r| == i
      invariant forall k :: 0 <= k < i ==> r[k] == f(xs[k], k + 1)
    {
      r := r + [f(xs[i], |r| + 1)];
    }
  }

  /** `xs.map(f)` where `f` throws on some items (`None`): the map throws when
      `f` throws on any item, and otherwise gives every item's image. */
  function MapAll<T, U>(xs: seq<T>, f: T -> Option<U>): (r: Option<seq<U>>)
    ensures r.None? <==> exists i :: 0 <= i < |xs| && f(xs[i]).None?
    ensures r.Some? ==> |r.value| == |xs| && forall i :: 0 <= i < |xs| ==> f(xs[i]) == Some(r.value[i])
  {
    if forall i :: 0 <= i < |xs| ==> f(xs[i]).Some? then
      Some(seq(|xs|, i requires 0 <= i < |xs| => f(xs[i]).value))
    else None
  }

  /** Appending an item that maps adds its image at the end. */
  lemma MapAllAppend<T, U>(xs: seq<T>, x: T, f: T -> Option<U>)
    requires MapAll(xs, f).Some? && f(x).Some?
    ensures MapAll(xs + [x], f) == Some(MapAll(xs, f).value + [f(x).value])
  {
    var ys := xs + [x];
    assert forall i :: 0 <= i < |xs| ==> ys[i] == xs[i];
    assert MapAll(ys, f).Some?;
    assert MapAll(ys, f).value == MapAll(xs, f).value + [f(x).value];
  }

  /** `Numbered` with an `f` that throws on some items: `None` when it throws on any. */
  function NumberedAll<T, U>(xs: seq<T>, f: (T, nat) -> Option<U>): (r: Option<seq<U>>)
    ensures r.None? <==> exists i :: 0 <= i < |xs| && f(xs[i], i + 1).None?
    ensures r.Some? ==> |r.value| == |xs| && forall i :: 0 <= i < |xs| ==> f(xs[i], i + 1) == Some(r.value[i])
  {
    if forall i :: 0 <= i < |xs| ==> f(xs[i], i + 1).Some? then
      Some(seq(|xs|, i requires 0 <= i < |xs| => f(xs[i], i + 1).value))
    else None
  }

  /** The push loop behind `NumberedAll`: it stops at the first item `f`
      throws on, and then nothing is returned. */
  method PushNumberedAll<T, U>(xs: seq<T>, f: (T, nat) -> Option<U>) returns (r: Option<seq<U>>)
    ensures r == NumberedAll(xs, f)
  {
    var acc := [];
    for i := 0 to |xs|
      invariant |acc| == i
      invariant forall k :: 0 <= k < i ==> f(xs[k], k + 1) == Some(acc[k])
    {
      var y := f(xs[i], |acc| + 1);
      if y.None? {
        return None;
      }
      acc := acc + [y.value];
    }
    assert acc == NumberedAll(xs, f).value;
    return Some(acc);
  }

  /** The present values among `f(0)`, ..., `f(n - 1)`, in order. */
  function Somes<T>(f: nat -> Option<T>, n: nat): seq<T>
  {
    if n == 0 then [] else Somes(f, n - 1) + (if f(n - 1).Some? then [f(n - 1).value] else [])
  }

  /** Exactly the present values are listed, at most one per index. */
  lemma {:induction false} SomesExact<T>(f: nat -> Option<T>, n: nat)
    ensures |Somes(f, n)| <= n
    ensures forall k: nat :: k < n && f(k).Some? ==> f(k).value in Somes(f, n)
    ensures forall x :: x in Somes(f, n) ==> exists k: nat :: k < n && f(k) == Some(x)
  {
    if n > 0 {
      SomesExact(f, n - 1);
      assert forall x :: x in Somes(f, n - 1) ==> x in Somes(f, n);
    }
  }

  /** The present values among `f(xs[0])`, `f(xs[1])`, ..., in order. */
  function Present<E, L>(xs: seq<E>, f: E -> Option<L>): seq<L>
  {
    if xs == [] then []
    else (if f(xs[0]).Some? then [f(xs[0]).value] else []) + Present(xs[1..], f)
  }

  /** The positions in `xs` that give a present value, in order. */
  function PresentPos<E, L>(xs: seq<E>, f: E -> Option<L>): (pos: seq<nat>)
    ensures forall j :: 0 <= j < |pos| ==> pos[j] < |xs|
  {
    if xs == [] then []
    else
      var p0 := PresentPos(xs[1..], f);
      (if f(xs[0]).Some? then [0] else []) + seq(|p0|, i requires 0 <= i < |p0| => p0[i] + 1)
  }

  /** The positions rise strictly. */
  lemma {:induction false} PresentPosIncreasing<E, L>(xs: seq<E>, f: E -> Option<L>)
    ensures forall j, k :: 0 <= j < k < |PresentPos(xs, f)| ==> PresentPos(xs, f)[j] < PresentPos(xs, f)[k]
  {
    if xs != [] {
      PresentPosIncreasing(xs[1..], f);
    }
  }

  /** The j-th present value is the value at the j-th position. */
  lemma {:induction false} PresentPosMatch<E, L>(xs: seq<E>, f: E -> Option<L>)
    ensures |PresentPos(xs, f)| == |Present(xs, f)|
    ensures forall j :: 0 <= j < |PresentPos(xs, f)| ==> f(xs[PresentPos(xs, f)[j]]) == Some(Present(xs, f)[j])
  {
    if xs != [] {
      PresentPosMatch(xs[1..], f);
      var p0 := PresentPos(xs[1..], f);
      var rest := Present(xs[1..], f);
      var shifted := seq(|p0|, i requires 0 <= i < |p0| => p0[i] + 1);
      forall i | 0 <= i < |p0| ensures f(xs[shifted[i]]) == Some(rest[i]) {
        assert xs[shifted[i]] == xs[1..][p0[i]];
      }
      var pos := (if f(xs[0]).Some? then [0] else []) + shifted;
      var vs := (if f(xs[0]).Some? then [f(xs[0]).value] else []) + rest;
      assert PresentPos(xs, f) == pos;
      assert Present(xs, f) == vs;
      forall j | 0 <= j < |pos| ensures f(xs[pos[j]]) == Some(vs[j]) {
        if f(xs[0]).Some? && j > 0 {
          assert pos[j] == shifted[j - 1] && vs[j] == rest[j - 1];
        }
      }
    }
  }

  /** A string attribute as JavaScript tests it in a condition: present and non-empty. */
  predicate Truthy(a: Option<string>)
  {
    a.Some? && a.value != ""
  }

  /** `attr || fallback` for an attribute that may be absent (`getAttribute` gives null). */
  function OrElse(a: Option<string>, fallback: string): (r: string)
    ensures Truthy(a) ==> r == a.value
    ensures !Truthy(a) ==> r == fallback
  {
    if Truthy(a) then a.value else fallback
  }

  /** `attr || undefined`: kept only when present and non-empty. */
  function IfTruthy(a: Option<string>): (r: Option<string>)
    ensures r.Some? <==> Truthy(a)
    ensures r.Some? ==> r == a
  {
    if Truthy(a) then a else None
  }

  /** `v !== inert ? v : undefined`: a computed style reported only when it
      differs from its inert default. */
  function Unless(v: string, inert: string): (o: Option<string>)
    ensures o == None <==> v == inert
    ensures o.Some? ==> o.value == v
  {
    if v != inert then Some(v) else None
  }

  // ---------------------------------------------------------------------
  // Whitespace: the characters JavaScript's `\s` and `String.prototype.trim` use.
  // ---------------------------------------------------------------------

  predicate IsSpace(c: char)
  {
    c == ' ' || c == '\t' || c == '\n' || c == '\r' || c == '\U{B}' || c == '\U{C}'
    || c == '\U{A0}' || c == '\U{1680}' || ('\U{2000}' <= c <= '\U{200A}')
    || c == '\U{2028}' || c == '\U{2029}' || c == '\U{202F}' || c == '\U{205F}'
    || c == '\U{3000}' || c == '\U{FEFF}'
  }

  predicate NoSpace(s: string)
  {
    forall i :: 0 <= i < |s| ==> !IsSpace(s[i])
  }

  /** Length of the run of non-whitespace characters that starts `s`. */
  function WordLength(s: string): (n: nat)
    ensures n <= |s|
    ensures NoSpace(s[..n])
    ensures n < |s| ==> IsSpace(s[n])
  {
    if s == [] || IsSpace(s[0]) then 0
    else
      var m := WordLength(s[1..]);
      assert s[..m + 1] == [s[0]] + s[1..][..m];
      m + 1
  }

  /** `s.split(/\s+/).filter(Boolean)`: the whitespace-separated words of `s`. */
  function Words(s: string): (r: seq<string>)
    ensures forall i :: 0 <= i < |r| ==> r[i] != [] && NoSpace(r[i])
    decreases |s|
  {
    if s == [] then []
    else if IsSpace(s[0]) then Words(s[1..])
    else
      var n := WordLength(s);
      [s[..n]] + Words(s[n..])
  }

  /** Number of whitespace characters at the start of `s`. */
  function LeadingSpaces(s: string): (n: nat)
    ensures n <= |s|
    ensures forall i :: 0 <= i < n ==> IsSpace(s[i])
    ensures n < |s| ==> !IsSpace(s[n])
  {
    if s == [] || !IsSpace(s[0]) then 0 else LeadingSpaces(s[1..]) + 1
  }

  /** Number of whitespace characters at the end of `s`. */
  function TrailingSpaces(s: string): (n: nat)
    ensures n <= |s|
    ensures forall i :: |s| - n <= i < |s| ==> IsSpace(s[i])
    ensures n < |s| ==> !IsSpace(s[|s| - n - 1])
  {
    if s == [] || !IsSpace(s[|s| - 1]) then 0 else TrailingSpaces(s[..|s| - 1]) + 1
  }

  /** `s.trim()`: `s` without its leading and trailing whitespace. */
  function Trim(s: string): (r: string)
    ensures |r| <= |s|
  {
    var a := LeadingSpaces(s);
    var rest := s[a..];
    var b := TrailingSpaces(rest);
    rest[..|rest| - b]
  }

  /** The trimmed text starts and ends with non-whitespace, and is empty
      exactly when the text is all whitespace. */
  lemma TrimProperties(s: string)
    ensures var r := Trim(s);
      && (r == [] || (!IsSpace(r[0]) && !IsSpace(r[|r| - 1])))
      && (r == [] <==> forall i :: 0 <= i < |s| ==> IsSpace(s[i]))
  {
  }

  /** `parts.join(sep)` */
  function Join(parts: seq<string>, sep: string): (r: string)
    ensures |parts| == 1 ==> r == parts[0]
  {
    if parts == [] then ""
    else if |parts| == 1 then parts[0]
    else parts[0] + sep + Join(parts[1..], sep)
  }

  // ---------------------------------------------------------------------
  // Decimal rendering of a count, as `'' + n` does.
  // ---------------------------------------------------------------------

  predicate IsDigit(c: char) { '0' <= c <= '9' }

  function DigitChar(d: nat): (c: char)
    requires d < 10
    ensures IsDigit(c) && c as int - '0' as int == d
  {
    ('0' as int + d) as char
  }

  /** The decimal digits of `n`, most significant first, without leading zeros. */
  function NatToString(n: nat): (s: string)
    ensures s != []
    ensures forall i :: 0 <= i < |s| ==> IsDigit(s[i])
  {
    if n < 10 then [DigitChar(n)] else NatToString(n / 10) + [DigitChar(n % 10)]
  }

  /** Value of a string of decimal digits. */
  function DigitsValue(s: string): int
    requires forall i :: 0 <= i < |s| ==> IsDigit(s[i])
  {
    if s == [] then 0
    else DigitsValue(s[..|s| - 1]) * 10 + (s[|s| - 1] as int - '0' as int)
  }

  /** Reading back the digits gives the count: the rendering loses nothing. */
  lemma {:induction false} NatToStringRoundTrip(n: nat)
    ensures DigitsValue(NatToString(n)) == n
  {
    if n >= 10 {
      NatToStringRoundTrip(n / 10);
      var s := NatToString(n);
      assert s[..|s| - 1] == NatToString(n / 10);
    }
  }

  /** Different counts render differently. */
  lemma NatToStringInjective(m: nat, n: nat)
    requires NatToString(m) == NatToString(n)
    ensures m == n
  {
    NatToStringRoundTrip(m);
    NatToStringRoundTrip(n);
  }
}
