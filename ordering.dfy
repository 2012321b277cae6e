/** The `ORDER BY` the store applies for `.order(column, { ascending })`:
    text in code-point order, `false` before `true`, and nulls last when
    ascending and first when descending (so descending is exactly the reverse
    order). The store leaves the order of rows with equal keys open; this
    model chooses to keep them in stored order. */
module Ordering {

  datatype SortKey = Text(s: string) | Flag(b: bool) | Null

  /** Lexicographic order on code points. */
  predicate StrLe(a: string, b: string) {
    a == [] || (b != [] && (a[0] < b[0] || (a[0] == b[0] && StrLe(a[1..], b[1..]))))
  }

  lemma {:induction false} StrLeTotal(a: string, b: string)
    ensures StrLe(a, b) || StrLe(b, a)
  {
    if a != [] && b != [] && a[0] == b[0] {
      StrLeTotal(a[1..], b[1..]);
    }
  }

  lemma {:induction false} StrLeTransitive(a: string, b: string, c: string)
    requires StrLe(a, b) && StrLe(b, c)
    ensures StrLe(a, c)
  {
    if a != [] && b != [] && c != [] && a[0] == b[0] && b[0] == c[0] {
      StrLeTransitive(a[1..], b[1..], c[1..]);
    }
  }

  /** Ascending order on keys; a null sorts after everything. Keys of one
      column are all text or all flags (or null), so the order between a
      text and a flag is a fixed, arbitrary choice. */
  predicate KeyLe(a: SortKey, b: SortKey) {
    match (a, b)
    case (Null, _) => b.Null?
    case (_, Null) => true
    case (Text(x), Text(y)) => StrLe(x, y)
    case (Flag(x), Flag(y)) => !x || y
    case (Text(_), Flag(_)) => true
    case (Flag(_), Text(_)) => false
  }

  /** `a` may come before `b` in the requested direction. */
  predicate Before(a: SortKey, b: SortKey, ascending: bool) {
    if ascending then KeyLe(a, b) else KeyLe(b, a)
  }

  lemma BeforeTotal(a: SortKey, b: SortKey, ascending: bool)
    ensures Before(a, b, ascending) || Before(b, a, ascending)
  {
    if a.Text? && b.Text? {
      StrLeTotal(a.s, b.s);
    }
  }

  lemma BeforeTransitive(a: SortKey, b: SortKey, c: SortKey, ascending: bool)
    requires Before(a, b, ascending) && Before(b, c, ascending)
    ensures Before(a, c, ascending)
  {
    if a.Text? && b.Text? && c.Text? {
      if ascending {
        StrLeTransitive(a.s, b.s, c.s);
      } else {
        StrLeTransitive(c.s, b.s, a.s);
      }
    }
  }

  predicate SortedBy<T>(s: seq<T>, key: T -> SortKey, ascending: bool) {
    forall i, j :: 0 <= i < j < |s| ==> Before(key(s[i]), key(s[j]), ascending)
  }

  /** An element that may precede the head of a sorted sequence may precede
      all of it. */
  lemma BeforeHeadBeforeAll<T>(x: T, s: seq<T>, key: T -> SortKey, ascending: bool)
    requires s != [] && SortedBy(s, key, ascending) && Before(key(x), key(s[0]), ascending)
    ensures forall j :: 0 <= j < |s| ==> Before(key(x), key(s[j]), ascending)
  {
    forall j | 0 < j < |s| ensures Before(key(x), key(s[j]), ascending) {
      BeforeTransitive(key(x), key(s[0]), key(s[j]), ascending);
    }
  }

  /** The head of a sorted sequence may precede every element of a
      rearrangement of its tail with one element added that it may precede. */
  lemma HeadBeforeAll<T>(x: T, s: seq<T>, rest: seq<T>, key: T -> SortKey, ascending: bool)
    requires s != [] && SortedBy(s, key, ascending) && Before(key(s[0]), key(x), ascending)
    requires multiset(rest) == multiset(s[1..]) + multiset{x}
    ensures forall j :: 0 <= j < |rest| ==> Before(key(s[0]), key(rest[j]), ascending)
  {
    forall j | 0 <= j < |rest| ensures Before(key(s[0]), key(rest[j]), ascending) {
      assert rest[j] in multiset(rest);
      if rest[j] != x {
        assert rest[j] in multiset(s[1..]);
        var k :| 0 <= k < |s[1..]| && s[1..][k] == rest[j];
        assert s[k + 1] == rest[j];
      }
    }
  }

  /** `x` placed before the first element it may precede. */
  function Insert<T>(x: T, s: seq<T>, key: T -> SortKey, ascending: bool): (r: seq<T>)
    requires SortedBy(s, key, ascending)
    ensures SortedBy(r, key, ascending)
    ensures multiset(r) == multiset(s) + multiset{x}
  {
    if s == [] then [x]
    else if Before(key(x), key(s[0]), ascending) then
      BeforeHeadBeforeAll(x, s, key, ascending);
      [x] + s
    else
      var rest := Insert(x, s[1..], key, ascending);
      BeforeTotal(key(x), key(s[0]), ascending);
      assert s == [s[0]] + s[1..];
      HeadBeforeAll(x, s, rest, key, ascending);
      [s[0]] + rest
  }

  /** The rows in the requested order; a stable insertion sort, so equal keys
      keep their relative order (the model's choice among the orders the
      store may return). */
  function Sort<T>(s: seq<T>, key: T -> SortKey, ascending: bool): (r: seq<T>)
    ensures SortedBy(r, key, ascending)
    ensures multiset(r) == multiset(s)
    ensures |r| == |s|
  {
    if s == [] then []
    else
      assert s == [s[0]] + s[1..];
      Insert(s[0], Sort(s[1..], key, ascending), key, ascending)
  }
}
