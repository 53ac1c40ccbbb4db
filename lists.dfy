// Python list semantics used throughout the photo organiser: negative
// indices, the clamping of `list.insert`, `list.index`, `list.pop` and
// `list.remove`.

module Lists {
  import opened Outcomes

  /** `xs[i]` accepts -n <= i < n; a negative index counts from the end. */
  function NormIndex(i: int, n: nat): (r: Option<nat>)
    ensures r.Some? <==> 0 <= i + n && i < n
    ensures r.Some? ==> r.value < n && (r.value == i || r.value == i + n)
  {
    if 0 <= i < n then Some(i) else if 0 <= i + n && i < 0 then Some(i + n) else None
  }

  /** Where `xs.insert(i, x)` puts `x`: a negative index counts from the end and both ends clamp. */
  function InsertPos(i: int, n: nat): (p: nat)
    ensures p <= n
    ensures 0 <= i <= n ==> p == i
    ensures i > n ==> p == n
    ensures i < 0 && 0 <= i + n ==> p == i + n
    ensures i + n < 0 ==> p == 0
  {
    if i < 0 then (if i + n < 0 then 0 else i + n) else if i > n then n else i
  }

  /** `xs.insert(i, x)`. */
  function Insert<T>(xs: seq<T>, i: int, x: T): (r: seq<T>)
    ensures |r| == |xs| + 1
    ensures r[InsertPos(i, |xs|)] == x
    ensures r[..InsertPos(i, |xs|)] == xs[..InsertPos(i, |xs|)]
    ensures r[InsertPos(i, |xs|) + 1..] == xs[InsertPos(i, |xs|)..]
  {
    var p := InsertPos(i, |xs|);
    xs[..p] + [x] + xs[p..]
  }

  /** `xs.index(x)`: the first position of `x`, None where Python raises ValueError. */
  function IndexOf<T(==)>(xs: seq<T>, x: T): (r: Option<nat>)
    ensures r.None? <==> x !in xs
    ensures r.Some? ==> r.value < |xs| && xs[r.value] == x && x !in xs[..r.value]
  {
    if |xs| == 0 then None
    else if xs[0] == x then Some(0)
    else
      match IndexOf(xs[1..], x)
      case None => None
      case Some(k) =>
        assert xs[..k + 1] == [xs[0]] + xs[1..][..k];
        Some(k + 1)
  }

  /** The list without its element at position `k` (`del xs[k]`, `xs.pop(k)`). */
  function RemoveAt<T>(xs: seq<T>, k: nat): (r: seq<T>)
    requires k < |xs|
    ensures |r| == |xs| - 1
    ensures forall j | 0 <= j < k :: r[j] == xs[j]
    ensures forall j | k <= j < |r| :: r[j] == xs[j + 1]
  {
    xs[..k] + xs[k + 1..]
  }

  /** `xs.remove(x)`: drops the first occurrence; None where Python raises ValueError. */
  function Remove<T(==)>(xs: seq<T>, x: T): (r: Option<seq<T>>)
    ensures r.None? <==> x !in xs
    ensures r.Some? ==> multiset(r.value) + multiset{x} == multiset(xs)
  {
    match IndexOf(xs, x)
    case None => None
    case Some(k) =>
      assert xs == xs[..k] + [x] + xs[k + 1..];
      Some(RemoveAt(xs, k))
  }

  /** Removing what was just inserted gives the list back. */
  lemma RemoveInserted<T>(xs: seq<T>, i: int, x: T)
    ensures RemoveAt(Insert(xs, i, x), InsertPos(i, |xs|)) == xs
  {
    var p := InsertPos(i, |xs|);
    var r := Insert(xs, i, x);
    assert r == xs[..p] + [x] + xs[p..];
    assert r[..p] == xs[..p];
    assert r[p + 1..] == xs[p..];
  }

  /** Removing the head of a list gives its tail. */
  lemma RemoveHead<T>(x: T, ys: seq<T>)
    ensures Remove([x] + ys, x) == Some(ys)
  {
    var xs := [x] + ys;
    assert IndexOf(xs, x) == Some(0);
    assert RemoveAt(xs, 0) == ys by {
      assert xs[..0] + xs[1..] == ys;
    }
  }

  /** Removing an element found after a different head keeps the head. */
  lemma RemoveBehind<T>(x: T, ys: seq<T>, u: T)
    requires x != u && u in ys
    ensures Remove([x] + ys, u) == Some([x] + Remove(ys, u).value)
  {
    var xs := [x] + ys;
    assert xs[1..] == ys;
    var k := IndexOf(ys, u).value;
    assert IndexOf(xs, u) == Some(k + 1);
    assert xs[..k + 1] == [x] + ys[..k];
    assert xs[k + 2..] == ys[k + 1..];
    assert RemoveAt(xs, k + 1) == [x] + RemoveAt(ys, k);
  }
}
