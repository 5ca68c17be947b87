/** Values and sequence operations shared by every part of the ProfStars model:
    an optional value, the JavaScript array operations the routes and pages use
    (`filter`, `find`, `slice`), and the bearer-token role check that each route
    file writes out for itself. */
module Common {

  datatype Option<T> = None | Some(value: T)

  /** `Array.prototype.filter`: the elements of `s` that satisfy `p`, in their order. */
  function Filter<T(!new)>(s: seq<T>, p: T -> bool): (r: seq<T>)
    ensures |r| <= |s|
    ensures forall x :: x in r <==> x in s && p(x)
    ensures forall i :: 0 <= i < |r| ==> p(r[i])
  {
    if s == [] then []
    else (if p(s[0]) then [s[0]] else []) + Filter(s[1..], p)
  }

  /** Filtering a concatenation filters each part: together with the one-element
      case this pins down that a filter keeps the original order. */
  lemma {:induction false} FilterConcat<T(!new)>(a: seq<T>, b: seq<T>, p: T -> bool)
    ensures Filter(a + b, p) == Filter(a, p) + Filter(b, p)
  {
    if a == [] {
      assert a + b == b;
    } else {
      assert (a + b)[1..] == a[1..] + b;
      FilterConcat(a[1..], b, p);
    }
  }

  /** A filter whose predicate holds everywhere returns its input unchanged. */
  lemma {:induction false} FilterAll<T(!new)>(s: seq<T>, p: T -> bool)
    requires forall i :: 0 <= i < |s| ==> p(s[i])
    ensures Filter(s, p) == s
  {
    if s != [] {
      FilterAll(s[1..], p);
    }
  }

  /** A filter whose predicate holds nowhere returns the empty sequence. */
  lemma {:induction false} FilterNone<T(!new)>(s: seq<T>, p: T -> bool)
    requires forall i :: 0 <= i < |s| ==> !p(s[i])
    ensures Filter(s, p) == []
  {
    if s != [] {
      FilterNone(s[1..], p);
    }
  }

  /** Two predicates that agree on every element filter alike. */
  lemma {:induction false} FilterSame<T(!new)>(s: seq<T>, p: T -> bool, q: T -> bool)
    requires forall i :: 0 <= i < |s| ==> p(s[i]) == q(s[i])
    ensures Filter(s, p) == Filter(s, q)
  {
    if s != [] {
      FilterSame(s[1..], p, q);
    }
  }

  /** The number of elements of `s` that satisfy `p` (a `countDocuments` query). */
  function Count<T(!new)>(s: seq<T>, p: T -> bool): (n: nat)
    ensures n == |Filter(s, p)|
  {
    if s == [] then 0 else (if p(s[0]) then 1 else 0) + Count(s[1..], p)
  }

  /** True when the relation `before` holds between every earlier and every later element. */
  ghost predicate Chain<T>(s: seq<T>, before: (T, T) -> bool)
  {
    forall i, j :: 0 <= i < j < |s| ==> before(s[i], s[j])
  }

  /** Filtering keeps a chain a chain: a sorted sequence stays sorted when filtered. */
  lemma {:induction false} FilterKeepsChain<T(!new)>(s: seq<T>, p: T -> bool, before: (T, T) -> bool)
    requires Chain(s, before)
    ensures Chain(Filter(s, p), before)
  {
    if s != [] {
      FilterKeepsChain(s[1..], p, before);
      var rest := Filter(s[1..], p);
      forall j | 0 <= j < |rest|
        ensures before(s[0], rest[j])
      {
        assert rest[j] in s[1..];
      }
    }
  }

  /** The position of the first element satisfying `p` (`Array.prototype.findIndex`,
      or the natural-order match of a Mongo `findOne`). */
  function FirstIndex<T>(s: seq<T>, p: T -> bool): (r: Option<nat>)
    ensures r.Some? ==> r.value < |s| && p(s[r.value])
    ensures r.Some? ==> forall j :: 0 <= j < r.value ==> !p(s[j])
    ensures r.None? <==> forall j :: 0 <= j < |s| ==> !p(s[j])
  {
    if s == [] then None
    else if p(s[0]) then Some(0)
    else match FirstIndex(s[1..], p)
      case None => None
      case Some(k) => Some(k + 1)
  }

  /** The first element satisfying `p` (`Array.prototype.find`, Mongo `findOne`). */
  function Find<T(!new)>(s: seq<T>, p: T -> bool): (r: Option<T>)
    ensures r.Some? ==> r.value in s && p(r.value)
    ensures r.None? <==> forall x :: x in s ==> !p(x)
  {
    match FirstIndex(s, p)
    case None => None
    case Some(i) => Some(s[i])
  }

  /** The sequence read back to front. */
  function Reverse<T(!new)>(s: seq<T>): (r: seq<T>)
    ensures |r| == |s|
    ensures forall i :: 0 <= i < |s| ==> r[i] == s[|s| - 1 - i]
    ensures forall x :: x in r <==> x in s
  {
    if s == [] then [] else Reverse(s[1..]) + [s[0]]
  }

  /** Reversing turns a chain of `before` into a chain of the converse relation. */
  lemma ReverseFlipsChain<T(!new)>(s: seq<T>, before: (T, T) -> bool, after: (T, T) -> bool)
    requires Chain(s, before)
    requires forall x, y :: before(x, y) ==> after(y, x)
    ensures Chain(Reverse(s), after)
  {
    var r := Reverse(s);
    forall i, j | 0 <= i < j < |r|
      ensures after(r[i], r[j])
    {
      assert before(s[|s| - 1 - j], s[|s| - 1 - i]);
    }
  }

  function Min(a: int, b: int): int { if a <= b then a else b }

  function Max(a: int, b: int): int { if a <= b then b else a }

  /** `Array.prototype.slice(start, end)` with indices that are not negative:
      both ends are clamped to the length of the sequence. */
  function Slice<T>(s: seq<T>, start: nat, end: nat): (r: seq<T>)
    ensures |r| == Max(0, Min(end, |s|) - Min(start, |s|))
    ensures forall i :: 0 <= i < |r| ==> r[i] == s[start + i]
  {
    var hi := Min(end, |s|);
    var lo := Min(start, hi);
    s[lo..hi]
  }

  /** The first `n` elements, or all of them when there are fewer (`slice(0, n)`, Mongo `limit`). */
  function Take<T>(s: seq<T>, n: nat): seq<T>
  {
    Slice(s, 0, n)
  }

  /** `Math.ceil(n / size)`. */
  function CeilDiv(n: nat, size: nat): (t: nat)
    requires size > 0
    ensures n == 0 ==> t == 0
    ensures n > 0 ==> (t - 1) * size < n <= t * size
  {
    (n + size - 1) / size
  }

  /** Page `page` (from 1) of `size` items: `items.slice((page - 1) * size, page * size)`. */
  function PageOf<T>(items: seq<T>, page: nat, size: nat): (r: seq<T>)
    requires page >= 1
    ensures |r| <= size
    ensures |r| == Max(0, Min(page * size, |items|) - Min((page - 1) * size, |items|))
    ensures forall i :: 0 <= i < |r| ==>
      (page - 1) * size + i < |items| && r[i] == items[(page - 1) * size + i]
  {
    Slice(items, (page - 1) * size, page * size)
  }

  /** Pages 1 to k, one after the other. */
  function PagesUpTo<T>(items: seq<T>, k: nat, size: nat): seq<T>
  {
    if k == 0 then [] else PagesUpTo(items, k - 1, size) + PageOf(items, k, size)
  }

  /** The first k pages are the first k * size items. */
  lemma {:induction false} PagesUpToPrefix<T>(items: seq<T>, k: nat, size: nat)
    ensures PagesUpTo(items, k, size) == items[..Min(k * size, |items|)]
  {
    if k > 0 {
      PagesUpToPrefix(items, k - 1, size);
      PageStep(k, size);
      SliceJoin(items, (k - 1) * size, k * size);
    }
  }

  /** The items before `a`, followed by the slice from `a` to `b`, are the items before `b`. */
  lemma SliceJoin<T>(items: seq<T>, a: nat, b: nat)
    requires a <= b
    ensures items[..Min(a, |items|)] + Slice(items, a, b) == items[..Min(b, |items|)]
  {
    var lo := Min(a, |items|);
    var hi := Min(b, |items|);
    assert Slice(items, a, b) == items[lo..hi];
    assert items[..lo] + items[lo..hi] == items[..hi];
  }

  /** Page k starts where page k - 1 ends. */
  lemma PageStep(k: nat, size: nat)
    requires k >= 1
    ensures (k - 1) * size + size == k * size
  {
  }

  /** Any number of pages reaching past the last item lists every item once, in order. */
  lemma PagesCover<T>(items: seq<T>, k: nat, size: nat)
    requires |items| <= k * size
    ensures PagesUpTo(items, k, size) == items
  {
    PagesUpToPrefix(items, k, size);
    assert items[..|items|] == items;
  }

  /** What a route's token check has in hand: no bearer token in the Authorization
      header, a token that cannot be decoded or verified, or the decoded payload. */
  datatype Bearer = NoToken | InvalidToken | Payload(id: nat, role: string)

  /** The three ways a role-checking middleware ends: 401, 403, or on to the handler. */
  datatype Gate = Unauthorized | Forbidden | Admitted(id: nat)

  /** The check every route file repeats: no token gives 401, a token that fails
      or carries another role gives 403, and otherwise the handler runs. */
  function CheckRole(b: Bearer, role: string): (g: Gate)
    ensures g == Unauthorized <==> b == NoToken
    ensures g.Admitted? <==> b.Payload? && b.role == role
    ensures g.Admitted? ==> g.id == b.id
  {
    match b
    case NoToken => Unauthorized
    case InvalidToken => Forbidden
    case Payload(id, r) => if r == role then Admitted(id) else Forbidden
  }
}
