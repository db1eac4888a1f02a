/** Shared vocabulary: optional values, fallible results, the ASCII string
    operations the JavaScript code relies on (toLowerCase, trim, startsWith,
    includes), a lexicographic order on strings and a generic insertion sort
    standing in for Array.prototype.sort with a comparator. */
module Common {

  /** A value that may be absent (`undefined` / `null` in the source). */
  datatype Option<+T> = None | Some(value: T) {
    function GetOr(default: T): T {
      match this
      case Some(v) => v
      case None => default
    }
  }

  /** The outcome of a remote call that may throw. */
  datatype Result<+T> = Success(value: T) | Failure(error: string)

  // ---------------------------------------------------------------------------
  // Characters and strings
  // ---------------------------------------------------------------------------

  predicate IsUpperAscii(c: char) { 'A' <= c <= 'Z' }
  predicate IsLowerAscii(c: char) { 'a' <= c <= 'z' }
  predicate IsDigit(c: char) { '0' <= c <= '9' }
  predicate IsAlnumAscii(c: char) { IsUpperAscii(c) || IsLowerAscii(c) || IsDigit(c) }

  /** The characters String.prototype.trim removes that the model knows about:
      ASCII whitespace and the no-break space. */
  predicate IsSpace(c: char) {
    c == ' ' || c == '\t' || c == '\n' || c == '\r' || c == '\U{000B}' || c == '\U{000C}' || c == '\U{00A0}'
  }

  function LowerChar(c: char): (d: char)
    ensures !IsUpperAscii(d)
    ensures IsUpperAscii(c) ==> IsLowerAscii(d)
    ensures !IsUpperAscii(c) ==> d == c
  {
    if IsUpperAscii(c) then (c as int + 32) as char else c
  }

  /** toLowerCase restricted to ASCII letters. */
  function ToLower(s: string): (r: string)
    ensures |r| == |s|
    ensures forall i :: 0 <= i < |s| ==> r[i] == LowerChar(s[i])
  {
    if s == [] then [] else [LowerChar(s[0])] + ToLower(s[1..])
  }

  /** A string that `trim()` turns into "". */
  predicate IsBlank(s: string) {
    forall i :: 0 <= i < |s| ==> IsSpace(s[i])
  }

  function TrimStart(s: string): (r: string)
    ensures |r| <= |s| && r == s[|s| - |r|..]
    ensures r == [] || !IsSpace(r[0])
    ensures IsBlank(s[..|s| - |r|])
  {
    if s == [] || !IsSpace(s[0]) then s
    else
      var r := TrimStart(s[1..]);
      assert s[1..][..|s[1..]| - |r|] == s[1..|s| - |r|];
      r
  }

  function TrimEnd(s: string): (r: string)
    ensures |r| <= |s| && r == s[..|r|]
    ensures r == [] || !IsSpace(r[|r| - 1])
    ensures IsBlank(s[|r|..])
  {
    if s == [] || !IsSpace(s[|s| - 1]) then s
    else
      var r := TrimEnd(s[..|s| - 1]);
      assert s[..|s| - 1][|r|..] == s[|r|..|s| - 1];
      r
  }

  /** String.prototype.trim: removes leading and trailing whitespace. */
  function Trim(s: string): (r: string)
    ensures |r| <= |s|
    ensures r == [] || (!IsSpace(r[0]) && !IsSpace(r[|r| - 1]))
  {
    TrimEnd(TrimStart(s))
  }

  /** `s.trim()` is empty exactly when every character of `s` is whitespace,
      which is the test `!s.trim()` performs. */
  lemma TrimEmptyIffBlank(s: string)
    ensures Trim(s) == [] <==> IsBlank(s)
  {
  }

  predicate StartsWith(s: string, prefix: string) {
    |prefix| <= |s| && s[..|prefix|] == prefix
  }

  /** String.prototype.includes. */
  predicate Contains(s: string, part: string) {
    exists i :: 0 <= i <= |s| - |part| && OccursAt(s, part, i)
  }

  predicate OccursAt(s: string, part: string, i: int) {
    0 <= i <= |s| - |part| && s[i..i + |part|] == part
  }

  /** The first position at or after `from` where `part` occurs. */
  function IndexFrom(s: string, part: string, from: nat): (r: Option<nat>)
    ensures r.Some? ==> from <= r.value && OccursAt(s, part, r.value)
    ensures forall j :: from <= j && (r.None? || j < r.value) ==> !OccursAt(s, part, j)
    decreases |s| - from
  {
    if from + |part| > |s| then None
    else if s[from..from + |part|] == part then Some(from)
    else IndexFrom(s, part, from + 1)
  }

  /** String.prototype.indexOf. */
  function IndexOf(s: string, part: string): (r: Option<nat>)
    ensures r.None? <==> !Contains(s, part)
    ensures r.Some? ==> OccursAt(s, part, r.value) && forall j :: 0 <= j < r.value ==> !OccursAt(s, part, j)
  {
    IndexFrom(s, part, 0)
  }

  /** String.prototype.replace with a string pattern: only the first occurrence is replaced. */
  function ReplaceFirst(s: string, part: string, with: string): (r: string)
    ensures !Contains(s, part) ==> r == s
    ensures Contains(s, part) ==> exists i :: OccursAt(s, part, i) && r == s[..i] + with + s[i + |part|..]
  {
    match IndexOf(s, part)
    case None => s
    case Some(i) => s[..i] + with + s[i + |part|..]
  }

  /** The part of `s` before the first occurrence of `sep`, i.e. `s.split(sep)[0]`. */
  function Before(s: string, sep: char): (r: string)
    ensures StartsWith(s, r)
    ensures sep !in r
    ensures |r| < |s| ==> s[|r|] == sep
  {
    if s == [] || s[0] == sep then [] else [s[0]] + Before(s[1..], sep)
  }

  /** Every character of `s` except those equal to `c` (a global replace by ""). */
  function Remove(s: string, c: char): (r: string)
    ensures c !in r
    ensures |r| <= |s|
    ensures forall x :: x != c ==> (x in r <==> x in s)
  {
    if s == [] then []
    else if s[0] == c then Remove(s[1..], c)
    else [s[0]] + Remove(s[1..], c)
  }

  /** Array.prototype.filter: the elements satisfying `p`, in their order,
      each kept as often as it occurs. */
  function Filter<T(!new)>(s: seq<T>, p: T -> bool): (r: seq<T>)
    ensures |r| <= |s|
    ensures forall x :: x in r <==> x in s && p(x)
    ensures forall i :: 0 <= i < |r| ==> p(r[i])
  {
    if s == [] then []
    else
      var n := |s| - 1;
      assert s == s[..n] + [s[n]];
      Filter(s[..n], p) + (if p(s[n]) then [s[n]] else [])
  }

  /** Filtering by a predicate every element satisfies keeps the sequence. */
  lemma {:induction false} FilterAll<T(!new)>(s: seq<T>, p: T -> bool)
    requires forall i :: 0 <= i < |s| ==> p(s[i])
    ensures Filter(s, p) == s
  {
    if s != [] {
      var n := |s| - 1;
      FilterAll(s[..n], p);
      assert s == s[..n] + [s[n]];
    }
  }

  /** Filtering keeps each element satisfying `p` as often as it occurs and
      drops the others entirely. */
  lemma {:induction false} FilterCount<T(!new)>(s: seq<T>, p: T -> bool)
    ensures forall x :: multiset(Filter(s, p))[x] == if p(x) then multiset(s)[x] else 0
  {
    if s != [] {
      var n := |s| - 1;
      FilterCount(s[..n], p);
      assert s == s[..n] + [s[n]];
      assert multiset(s) == multiset(s[..n]) + multiset{s[n]};
    }
  }

  /** Array.prototype.findIndex: the position of the first element satisfying `p`. */
  function FindIndex<T>(s: seq<T>, p: T -> bool): (r: Option<nat>)
    ensures r.None? <==> forall i :: 0 <= i < |s| ==> !p(s[i])
    ensures r.Some? ==> r.value < |s| && p(s[r.value]) && forall j :: 0 <= j < r.value ==> !p(s[j])
  {
    if s == [] then None
    else if p(s[0]) then Some(0)
    else match FindIndex(s[1..], p)
      case None => None
      case Some(k) => Some(k + 1)
  }

  /** Filtering distributes over appending one element. */
  lemma FilterSnoc<T(!new)>(s: seq<T>, x: T, p: T -> bool)
    ensures Filter(s + [x], p) == Filter(s, p) + (if p(x) then [x] else [])
  {
    assert (s + [x])[..|s|] == s;
  }

  lemma FilterSingleton<T(!new)>(x: T, p: T -> bool)
    ensures Filter([x], p) == if p(x) then [x] else []
  {
    FilterSnoc([], x, p);
    assert [] + [x] == [x];
  }

  lemma FilterCons<T(!new)>(x: T, s: seq<T>, p: T -> bool)
    ensures Filter([x] + s, p) == (if p(x) then [x] else []) + Filter(s, p)
  {
    FilterAppend([x], s, p);
    FilterSingleton(x, p);
  }

  /** Filtering distributes over concatenation: what is kept from a prefix
      comes before what is kept from the rest. */
  lemma {:induction false} FilterAppend<T(!new)>(a: seq<T>, b: seq<T>, p: T -> bool)
    ensures Filter(a + b, p) == Filter(a, p) + Filter(b, p)
    decreases |b|
  {
    if b == [] {
      FilterAppendNil(a, p);
    } else {
      var init, last := b[..|b| - 1], b[|b| - 1];
      FilterAppend(a, init, p);
      FilterAppendStep(a, b, init, last, p);
    }
  }

  lemma FilterAppendNil<T(!new)>(a: seq<T>, p: T -> bool)
    ensures Filter(a + [], p) == Filter(a, p) + Filter([], p)
  {
    assert a + [] == a;
  }

  lemma FilterAppendStep<T(!new)>(a: seq<T>, b: seq<T>, init: seq<T>, last: T, p: T -> bool)
    requires b == init + [last]
    requires Filter(a + init, p) == Filter(a, p) + Filter(init, p)
    ensures Filter(a + b, p) == Filter(a, p) + Filter(b, p)
  {
    FilterSnocAt(a + b, a + init, last, p);
    FilterSnocAt(b, init, last, p);
    SeqAssoc(Filter(a, p), Filter(init, p), if p(last) then [last] else []);
  }

  lemma FilterSnocAt<T(!new)>(t: seq<T>, s: seq<T>, x: T, p: T -> bool)
    requires t == s + [x]
    ensures Filter(t, p) == Filter(s, p) + (if p(x) then [x] else [])
  {
    FilterSnoc(s, x, p);
  }

  lemma SeqAssoc<T>(x: seq<T>, y: seq<T>, z: seq<T>)
    ensures (x + y) + z == x + (y + z)
  {
  }

  /** `r` is what remains of `s` after deleting some of its elements: the
      elements of `r` occur in `s` in the same relative order. */
  ghost predicate Subsequence<T>(r: seq<T>, s: seq<T>)
    decreases |s|
  {
    r == [] || (s != [] &&
      ((r[|r| - 1] == s[|s| - 1] && Subsequence(r[..|r| - 1], s[..|s| - 1]))
       || Subsequence(r, s[..|s| - 1])))
  }

  /** Filtering keeps the order of what it keeps. */
  lemma {:induction false} FilterIsSubsequence<T(!new)>(s: seq<T>, p: T -> bool)
    ensures Subsequence(Filter(s, p), s)
  {
    if s != [] {
      var n := |s| - 1;
      var init := s[..n];
      var fi := Filter(init, p);
      FilterIsSubsequence(init, p);
      var f := Filter(s, p);
      assert s[..|s| - 1] == init;
      if p(s[n]) {
        assert f == fi + [s[n]];
        assert f[..|f| - 1] == fi && f[|f| - 1] == s[n];
      } else {
        assert f == fi;
      }
    }
  }

  // ---------------------------------------------------------------------------
  // Percentages
  // ---------------------------------------------------------------------------

  /** `total === 0 ? 0 : Math.round((ok / total) * 100)` in exact arithmetic:
      the nearest integer to 100·ok/total, halves rounded up. */
  function RoundPercent(ok: nat, total: nat): (p: nat)
    ensures total == 0 ==> p == 0
  {
    if total == 0 then 0 else (200 * ok + total) / (2 * total)
  }

  /** RoundPercent is the nearest integer: 100·ok/total lies in [p - 1/2, p + 1/2). */
  lemma RoundPercentIsNearest(ok: nat, total: nat)
    requires total > 0
    ensures var p := RoundPercent(ok, total);
      p * (2 * total) <= 200 * ok + total < (p + 1) * (2 * total)
  {
  }

  lemma MulLe(a: nat, b: nat, c: nat)
    requires a <= b
    ensures a * c <= b * c
  {
  }

  /** All cells good reads as 100, and never more than 100. */
  lemma RoundPercentBounds(ok: nat, total: nat)
    requires ok <= total
    ensures RoundPercent(ok, total) <= 100
    ensures total > 0 && ok == total ==> RoundPercent(ok, total) == 100
  {
    var p := RoundPercent(ok, total);
    if total > 0 {
      RoundPercentIsNearest(ok, total);
      if p >= 101 {
        MulLe(101, p, 2 * total);
        assert false;
      }
      if ok == total && p <= 99 {
        MulLe(p + 1, 100, 2 * total);
        assert false;
      }
    }
  }

  // ---------------------------------------------------------------------------
  // Lexicographic order (code-unit order, as a plain string comparison gives)
  // ---------------------------------------------------------------------------

  predicate StrLe(a: string, b: string)
    decreases |a|
  {
    a == [] || (b != [] && (a[0] < b[0] || (a[0] == b[0] && StrLe(a[1..], b[1..]))))
  }

  lemma {:induction false} StrLeTotal(a: string, b: string)
    ensures StrLe(a, b) || StrLe(b, a)
    decreases |a|
  {
    if a != [] && b != [] && a[0] == b[0] {
      StrLeTotal(a[1..], b[1..]);
    }
  }

  lemma {:induction false} StrLeAntisymmetric(a: string, b: string)
    requires StrLe(a, b) && StrLe(b, a)
    ensures a == b
    decreases |a|
  {
    if a != [] {
      StrLeAntisymmetric(a[1..], b[1..]);
      assert a == [a[0]] + a[1..];
      assert b == [b[0]] + b[1..];
    }
  }

  lemma {:induction false} StrLeTransitive(a: string, b: string, c: string)
    requires StrLe(a, b) && StrLe(b, c)
    ensures StrLe(a, c)
    decreases |a|
  {
    if a != [] && b != [] && c != [] && a[0] == b[0] && b[0] == c[0] {
      StrLeTransitive(a[1..], b[1..], c[1..]);
    }
  }

  predicate IsLeast(m: string, s: set<string>) {
    m in s && forall y :: y in s ==> StrLe(m, y)
  }

  lemma {:induction false} LeastExists(s: set<string>)
    requires s != {}
    ensures exists m :: IsLeast(m, s)
    decreases |s|
  {
    var x :| x in s;
    StrLeTotal(x, x);
    if s == {x} {
      assert IsLeast(x, s);
    } else {
      LeastExists(s - {x});
      var m :| IsLeast(m, s - {x});
      StrLeTotal(m, x);
      if StrLe(m, x) {
        assert IsLeast(m, s);
      } else {
        forall y | y in s ensures StrLe(x, y) {
          if y != x { StrLeTransitive(x, m, y); }
        }
        assert IsLeast(x, s);
      }
    }
  }

  /** The elements of a finite set of strings in ascending order. */
  function Enumerate(s: set<string>): (r: seq<string>)
    ensures forall x :: x in r <==> x in s
    ensures |r| == |s|
    ensures forall i, j :: 0 <= i < j < |r| ==> StrLe(r[i], r[j]) && r[i] != r[j]
    decreases |s|
  {
    if s == {} then []
    else
      LeastExists(s);
      var m :| IsLeast(m, s);
      assert forall m' :: IsLeast(m', s) ==> m' == m by {
        forall m' | IsLeast(m', s) ensures m' == m { StrLeAntisymmetric(m, m'); }
      }
      var rest := Enumerate(s - {m});
      [m] + rest
  }

  // ---------------------------------------------------------------------------
  // Sorting by a comparator
  // ---------------------------------------------------------------------------

  ghost predicate TotalPreorder<T(!new)>(le: (T, T) -> bool) {
    && (forall a, b :: le(a, b) || le(b, a))
    && (forall a, b, c :: le(a, b) && le(b, c) ==> le(a, c))
  }

  ghost predicate SortedBy<T>(s: seq<T>, le: (T, T) -> bool) {
    forall i, j :: 0 <= i < j < |s| ==> le(s[i], s[j])
  }

  /** A head no greater than any element of a sorted tail keeps it sorted. */
  lemma ConsSorted<T>(h: T, tail: seq<T>, le: (T, T) -> bool)
    requires SortedBy(tail, le)
    requires forall j :: 0 <= j < |tail| ==> le(h, tail[j])
    ensures SortedBy([h] + tail, le)
  {
    forall i, j | 0 <= i < j < |[h] + tail| ensures le(([h] + tail)[i], ([h] + tail)[j]) {
      if i > 0 { assert ([h] + tail)[i] == tail[i - 1]; }
      assert ([h] + tail)[j] == tail[j - 1];
    }
  }

  /** After inserting an element greater than the head into the rest of a
      sorted sequence, every element is still at least the head. */
  lemma InsertedTailAbove<T(!new)>(x: T, s: seq<T>, le: (T, T) -> bool, tail: seq<T>)
    requires TotalPreorder(le) && SortedBy(s, le) && s != [] && !le(x, s[0])
    requires multiset(tail) == multiset(s[1..]) + multiset{x}
    ensures forall j :: 0 <= j < |tail| ==> le(s[0], tail[j])
  {
    forall j | 0 <= j < |tail| ensures le(s[0], tail[j]) {
      var y := tail[j];
      assert y in multiset(tail);
      if y != x {
        assert y in multiset(s[1..]);
        var k :| 0 <= k < |s[1..]| && s[1..][k] == y;
        assert s[k + 1] == y;
      }
    }
  }

  function Insert<T(!new)>(x: T, s: seq<T>, le: (T, T) -> bool): (r: seq<T>)
    requires TotalPreorder(le)
    requires SortedBy(s, le)
    ensures multiset(r) == multiset(s) + multiset{x}
    ensures |r| == |s| + 1
    ensures SortedBy(r, le)
  {
    if s == [] then [x]
    else if le(x, s[0]) then
      ConsSorted(x, s, le);
      [x] + s
    else
      var tail := Insert(x, s[1..], le);
      assert s == [s[0]] + s[1..];
      InsertedTailAbove(x, s, le, tail);
      ConsSorted(s[0], tail, le);
      [s[0]] + tail
  }

  /** `q` picks out elements that the comparator ranks alike. */
  ghost predicate Tied<T(!new)>(q: T -> bool, le: (T, T) -> bool) {
    forall a, b :: q(a) && q(b) ==> le(a, b)
  }

  /** Inserting puts the new element before every element ranked like it. */
  lemma {:induction false} InsertBeforeTies<T(!new)>(x: T, s: seq<T>, le: (T, T) -> bool, q: T -> bool)
    requires TotalPreorder(le) && SortedBy(s, le) && Tied(q, le)
    ensures Filter(Insert(x, s, le), q) == (if q(x) then [x] else []) + Filter(s, q)
  {
    if s == [] {
      FilterCons(x, s, q);
    } else if le(x, s[0]) {
      FilterCons(x, s, q);
    } else {
      var h, rest := s[0], s[1..];
      InsertBeforeTies(x, rest, le, q);
      assert q(x) ==> !q(h);
      assert s == [h] + rest;
      PassTies(x, h, rest, Insert(x, rest, le), q);
    }
  }

  /** One step of the insertion: an element not ranked like the inserted one
      may be passed over without disturbing the ties. */
  lemma PassTies<T(!new)>(x: T, h: T, rest: seq<T>, tail: seq<T>, q: T -> bool)
    requires Filter(tail, q) == (if q(x) then [x] else []) + Filter(rest, q)
    requires q(x) ==> !q(h)
    ensures Filter([h] + tail, q) == (if q(x) then [x] else []) + Filter([h] + rest, q)
  {
    FilterCons(h, tail, q);
    FilterCons(h, rest, q);
  }

  /** Sorting with a comparator: an ordered permutation of the input. */
  function SortBy<T(!new)>(s: seq<T>, le: (T, T) -> bool): (r: seq<T>)
    requires TotalPreorder(le)
    ensures multiset(r) == multiset(s)
    ensures |r| == |s|
    ensures SortedBy(r, le)
  {
    if s == [] then []
    else
      assert s == [s[0]] + s[1..];
      Insert(s[0], SortBy(s[1..], le), le)
  }

  /** The sort is stable: elements the comparator ranks alike keep their
      original relative order. */
  lemma {:induction false} SortByIsStable<T(!new)>(s: seq<T>, le: (T, T) -> bool, q: T -> bool)
    requires TotalPreorder(le) && Tied(q, le)
    ensures Filter(SortBy(s, le), q) == Filter(s, q)
  {
    if s != [] {
      SortByIsStable(s[1..], le, q);
      InsertBeforeTies(s[0], SortBy(s[1..], le), le, q);
      assert s == [s[0]] + s[1..];
      FilterAppend([s[0]], s[1..], q);
      FilterSnoc([], s[0], q);
      assert [] + [s[0]] == [s[0]];
    }
  }
}
