/**
 * The few JavaScript built-ins the flashcard code leans on, as Dafny
 * functions: `Array.prototype.filter`, `Array.prototype.join`,
 * `Number.prototype.toString` on integers (exact integers, without the
 * limits of double precision), and (as a reference used only in
 * specifications) `String.prototype.split` on one character.
 */
module Seqs {

  /** `r` is obtained from `s` by deleting zero or more elements, keeping
      the order of the rest. */
  ghost predicate Subsequence<T>(r: seq<T>, s: seq<T>)
    decreases |s|
  {
    if r == [] then true
    else if s == [] then false
    else (r[0] == s[0] && Subsequence(r[1..], s[1..])) || Subsequence(r, s[1..])
  }

  /** `s.filter(p)`: the elements satisfying `p`, in their original
      order (see FilterIsSubsequence for the full characterisation). */
  function Filter<T>(p: T -> bool, s: seq<T>): (r: seq<T>)
    ensures |r| <= |s|
    ensures forall x | x in r :: x in s && p(x)
  {
    if s == [] then []
    else
      var rest := Filter(p, s[1..]);
      if p(s[0]) then [s[0]] + rest else rest
  }

  /** The filtered list is a subsequence of the list that keeps every
      element passing the filter as often as it occurs; together with the
      membership clause of Filter this determines it. */
  lemma {:induction false} FilterIsSubsequence<T>(p: T -> bool, s: seq<T>)
    ensures Subsequence(Filter(p, s), s)
    ensures forall x | x in s && p(x) :: multiset(Filter(p, s))[x] == multiset(s)[x]
  {
    if s != [] {
      FilterIsSubsequence(p, s[1..]);
      var rest := Filter(p, s[1..]);
      assert s == [s[0]] + s[1..];
      if p(s[0]) {
        assert ([s[0]] + rest)[1..] == rest;
      }
    }
  }

  /** Filtering a second time with the same predicate changes nothing. */
  lemma {:induction false} FilterIdempotent<T>(p: T -> bool, s: seq<T>)
    ensures Filter(p, Filter(p, s)) == Filter(p, s)
  {
    if s != [] {
      FilterIdempotent(p, s[1..]);
      var rest := Filter(p, s[1..]);
      if p(s[0]) {
        assert ([s[0]] + rest)[1..] == rest;
      }
    }
  }

  /** `s.map(x => sel(x) ? f(x) : x)`: every selected element rewritten,
      every other element kept, in place. */
  function MapWhere<T>(sel: T -> bool, f: T -> T, s: seq<T>): (r: seq<T>)
    ensures |r| == |s|
    ensures forall k | 0 <= k < |s| :: r[k] == if sel(s[k]) then f(s[k]) else s[k]
  {
    if s == [] then [] else [if sel(s[0]) then f(s[0]) else s[0]] + MapWhere(sel, f, s[1..])
  }

  lemma FilterCons<T>(p: T -> bool, x: T, t: seq<T>)
    ensures Filter(p, [x] + t) == (if p(x) then [x] else []) + Filter(p, t)
  {
    assert ([x] + t)[1..] == t;
  }

  lemma MapWhereCons<T>(sel: T -> bool, f: T -> T, x: T, t: seq<T>)
    ensures MapWhere(sel, f, [x] + t) == [if sel(x) then f(x) else x] + MapWhere(sel, f, t)
  {
    assert ([x] + t)[1..] == t;
  }

  /** At most one element of `s` is selected. */
  ghost predicate SelectsAtMostOne<T>(sel: T -> bool, s: seq<T>)
  {
    forall j, k | 0 <= j < k < |s| :: !(sel(s[j]) && sel(s[k]))
  }

  /** How rewriting the one selected element, the `i`-th of the filtered
      list, reshapes that list: the element leaves it when its rewrite no
      longer passes the filter, and is rewritten in place otherwise. */
  ghost predicate FilterReshaped<T>(p: T -> bool, sel: T -> bool, f: T -> T, s: seq<T>, i: nat)
    requires i < |Filter(p, s)|
  {
    var u := Filter(p, s);
    var after := Filter(p, MapWhere(sel, f, s));
    && (!p(f(u[i])) ==> after == u[..i] + u[i + 1..])
    && (p(f(u[i])) ==> after == u[i := f(u[i])])
  }

  lemma ConsRemove<T>(x: T, t: seq<T>, j: nat)
    requires j < |t|
    ensures ([x] + t)[..j + 1] + ([x] + t)[j + 2..] == [x] + (t[..j] + t[j + 1..])
  {
    assert ([x] + t)[..j + 1] == [x] + t[..j];
    assert ([x] + t)[j + 2..] == t[j + 1..];
  }

  lemma ConsUpdate<T>(x: T, t: seq<T>, j: nat, y: T)
    requires j < |t|
    ensures ([x] + t)[j + 1 := y] == [x] + t[j := y]
  {
  }

  lemma FilterReshapedAtHead<T>(p: T -> bool, sel: T -> bool, f: T -> T, x: T, t: seq<T>)
    requires p(x) && sel(x)
    requires forall k | 0 <= k < |t| :: !sel(t[k])
    ensures |Filter(p, [x] + t)| > 0 && FilterReshaped(p, sel, f, [x] + t, 0)
  {
    FilterCons(p, x, t);
    assert MapWhere(sel, f, t) == t;
    MapWhereCons(sel, f, x, t);
    FilterCons(p, f(x), t);
  }

  lemma FilterReshapedInTail<T>(p: T -> bool, sel: T -> bool, f: T -> T, x: T, t: seq<T>, j: nat)
    requires j < |Filter(p, t)|
    requires !sel(x)
    requires FilterReshaped(p, sel, f, t, j)
    ensures var i := if p(x) then j + 1 else j;
            i < |Filter(p, [x] + t)| && FilterReshaped(p, sel, f, [x] + t, i)
  {
    var ut := Filter(p, t);
    FilterCons(p, x, t);
    MapWhereCons(sel, f, x, t);
    FilterCons(p, x, MapWhere(sel, f, t));
    if p(x) {
      ConsRemove(x, ut, j);
      ConsUpdate(x, ut, j, f(ut[j]));
    }
  }

  lemma SelectsAtMostOneTail<T>(sel: T -> bool, s: seq<T>)
    requires s != [] && SelectsAtMostOne(sel, s)
    ensures SelectsAtMostOne(sel, s[1..])
    ensures sel(s[0]) ==> forall k | 0 <= k < |s[1..]| :: !sel(s[1..][k])
  {
    var t := s[1..];
    forall a, b | 0 <= a < b < |t| ensures !(sel(t[a]) && sel(t[b])) {
      assert s[a + 1] == t[a] && s[b + 1] == t[b];
    }
    forall k | 0 <= k < |t| ensures sel(s[0]) ==> !sel(t[k]) {
      assert s[k + 1] == t[k];
    }
  }

  /** With at most one selected element, the `i`-th of the filtered list,
      rewriting it removes it from the filtered list (all later elements
      move one place forward) when the rewrite fails the filter, and
      rewrites it in place otherwise. */
  lemma {:induction false} FilterAfterMapWhere<T>(p: T -> bool, sel: T -> bool, f: T -> T, s: seq<T>, i: nat)
    requires i < |Filter(p, s)|
    requires sel(Filter(p, s)[i])
    requires SelectsAtMostOne(sel, s)
    ensures var u := Filter(p, s);
            var after := Filter(p, MapWhere(sel, f, s));
            && (!p(f(u[i])) ==> after == u[..i] + u[i + 1..])
            && (p(f(u[i])) ==> after == u[i := f(u[i])])
  {
    var x, t := s[0], s[1..];
    assert s == [x] + t;
    if p(x) && i == 0 {
      assert FilterReshaped(p, sel, f, s, i) by {
        FilterCons(p, x, t);
        SelectsAtMostOneTail(sel, s);
        FilterReshapedAtHead(p, sel, f, x, t);
      }
    } else {
      var j := if p(x) then i - 1 else i;
      assert j < |Filter(p, t)| && sel(Filter(p, t)[j]) && !sel(x) && SelectsAtMostOne(sel, t) by {
        FilterCons(p, x, t);
        SelectsAtMostOneTail(sel, s);
        var y := Filter(p, t)[j];
        assert y in t;
        var m :| 0 <= m < |t| && t[m] == y;
        assert s[m + 1] == y;
      }
      FilterAfterMapWhere(p, sel, f, t, j);
      assert FilterReshaped(p, sel, f, s, i) by {
        FilterReshapedInTail(p, sel, f, x, t, j);
      }
    }
  }

  /** `parts.join([sep])`. */
  function Join(parts: seq<string>, sep: char): (r: string)
    ensures |parts| == 1 ==> r == parts[0]
    ensures |parts| == 0 ==> r == ""
    ensures |parts| >= 1 ==> parts[0] <= r
  {
    if |parts| == 0 then ""
    else if |parts| == 1 then parts[0]
    else parts[0] + [sep] + Join(parts[1..], sep)
  }

  /** `s.split(sep)` for a one-character separator: never empty, and the
      empty string splits into one empty part. */
  ghost function Split(s: string, sep: char): (r: seq<string>)
    ensures |r| >= 1
    decreases |s|
  {
    if s == [] then [""]
    else
      var rest := Split(s[1..], sep);
      if s[0] == sep then [""] + rest else [[s[0]] + rest[0]] + rest[1..]
  }

  lemma {:induction false} SplitWithoutSeparator(p: string, sep: char)
    requires sep !in p
    ensures Split(p, sep) == [p]
  {
    if p != [] {
      SplitWithoutSeparator(p[1..], sep);
      assert [p[0]] + p[1..] == p;
    }
  }

  lemma {:induction false} SplitAfterPart(p: string, t: string, sep: char)
    requires sep !in p
    ensures Split(p + [sep] + t, sep) == [p] + Split(t, sep)
  {
    if p == [] {
      assert p + [sep] + t == [sep] + t;
      assert ([sep] + t)[1..] == t;
    } else {
      SplitAfterPart(p[1..], t, sep);
      var s := p + [sep] + t;
      assert s[0] == p[0];
      assert s[1..] == p[1..] + [sep] + t;
      assert [p[0]] + p[1..] == p;
    }
  }

  /** Splitting a join on its separator gives the parts back, provided no
      part contains the separator and there is at least one part. */
  lemma {:induction false} SplitJoin(parts: seq<string>, sep: char)
    requires |parts| >= 1
    requires forall k | 0 <= k < |parts| :: sep !in parts[k]
    ensures Split(Join(parts, sep), sep) == parts
  {
    if |parts| == 1 {
      SplitWithoutSeparator(parts[0], sep);
    } else {
      SplitJoin(parts[1..], sep);
      SplitAfterPart(parts[0], Join(parts[1..], sep), sep);
      assert [parts[0]] + parts[1..] == parts;
    }
  }

  /** A character that is neither the separator nor in any part is not in
      the join. */
  lemma {:induction false} JoinAvoids(parts: seq<string>, sep: char, c: char)
    requires c != sep
    requires forall k | 0 <= k < |parts| :: c !in parts[k]
    ensures c !in Join(parts, sep)
  {
    if |parts| > 1 {
      JoinAvoids(parts[1..], sep, c);
    }
  }

  function DigitChar(d: nat): (c: char)
    requires d < 10
    ensures '0' <= c <= '9' && c as int - '0' as int == d
  {
    ['0', '1', '2', '3', '4', '5', '6', '7', '8', '9'][d]
  }

  /** Decimal rendering of a non-negative integer, without leading zeros. */
  function NatToDecimal(n: nat): (r: string)
    ensures |r| >= 1
    ensures forall k | 0 <= k < |r| :: '0' <= r[k] <= '9'
    ensures |r| > 1 ==> r[0] != '0'
  {
    if n < 10 then [DigitChar(n)] else NatToDecimal(n / 10) + [DigitChar(n % 10)]
  }

  /** `n.toString()` for an integer-valued number: a minus sign for a
      negative number, then the digits of its magnitude. */
  function IntToDecimal(n: int): (r: string)
    ensures |r| >= 1
    ensures (r[0] == '-') <==> n < 0
    ensures r[0] == '-' || '0' <= r[0] <= '9'
    ensures forall k | 1 <= k < |r| :: '0' <= r[k] <= '9'
    ensures n >= 0 && |r| > 1 ==> r[0] != '0'
    ensures n < 0 ==> |r| >= 2 && r[1] != '0'
    ensures n >= 0 ==> DecimalValue(r) == n
    ensures n < 0 ==> |r| >= 2 && DecimalValue(r[1..]) == -n
  {
    if n < 0 then
      DecimalRoundTrip(-n);
      var r := "-" + NatToDecimal(-n);
      assert r[1..] == NatToDecimal(-n);
      r
    else
      DecimalRoundTrip(n);
      NatToDecimal(n)
  }

  /** The value a string of decimal digits denotes (reference reading). */
  ghost function DecimalValue(s: string): int
    decreases |s|
  {
    if s == [] then 0
    else DecimalValue(s[..|s| - 1]) * 10 + (s[|s| - 1] as int - '0' as int)
  }

  /** The decimal rendering reads back as the number it renders. */
  lemma {:induction false} DecimalRoundTrip(n: nat)
    ensures DecimalValue(NatToDecimal(n)) == n
  {
    if n >= 10 {
      DecimalRoundTrip(n / 10);
      var s := NatToDecimal(n);
      assert s[..|s| - 1] == NatToDecimal(n / 10);
    }
  }
}
