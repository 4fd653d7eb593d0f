/** Two iterator adapters over items that are `Result`s: `map_ok_res` applies
    a fallible function to every `Ok` value, and `filter_map_ok_res` applies
    one that may also drop the item. Errors from the inner iterator are
    passed along, and neither adapter stops after an error. An iterator is
    modelled by the items it has left to yield. */
module ExtraItertools {
  import opened Outcomes

  // `map_ok_res`.

  /** What one inner item becomes. */
  function MapOne<TI, TO, E>(item: Result<TI, E>, f: TI -> Result<TO, E>): Result<TO, E> {
    match item
    case Ok(v) => f(v)
    case Err(e) => Err(e)
  }

  /** Everything the adapter yields from the inner items `items`. */
  function MapOkRes<TI, TO, E>(items: seq<Result<TI, E>>, f: TI -> Result<TO, E>): (out: seq<Result<TO, E>>)
    ensures |out| == |items|
  {
    if items == [] then [] else [MapOne(items[0], f)] + MapOkRes(items[1..], f)
  }

  /** The adapter yields one item per inner item, in order: `f(v)` for
      `Ok(v)`, and `Err(e)` for `Err(e)`. */
  lemma {:induction false} MapOkResPointwise<TI, TO, E>(items: seq<Result<TI, E>>, f: TI -> Result<TO, E>)
    ensures forall k :: 0 <= k < |items| && items[k].Ok? ==> MapOkRes(items, f)[k] == f(items[k].value)
    ensures forall k :: 0 <= k < |items| && items[k].Err? ==> MapOkRes(items, f)[k] == Err(items[k].error)
  {
    forall k | 0 <= k < |items|
      ensures MapOkRes(items, f)[k] == MapOne(items[k], f)
    {
      MapOkResAt(items, f, k);
    }
  }

  lemma {:induction false} MapOkResAt<TI, TO, E>(items: seq<Result<TI, E>>, f: TI -> Result<TO, E>, k: nat)
    requires k < |items|
    ensures MapOkRes(items, f)[k] == MapOne(items[k], f)
  {
    if k > 0 {
      MapOkResAt(items[1..], f, k - 1);
    }
  }

  /** Mapping a concatenation maps each part: an error in the first part
      does not stop the second. */
  lemma {:induction false} MapOkResAppend<TI, TO, E>(a: seq<Result<TI, E>>, b: seq<Result<TI, E>>, f: TI -> Result<TO, E>)
    ensures MapOkRes(a + b, f) == MapOkRes(a, f) + MapOkRes(b, f)
  {
    if a == [] {
      assert a + b == b;
    } else {
      assert (a + b)[1..] == a[1..] + b;
      MapOkResAppend(a[1..], b, f);
    }
  }

  // `filter_map_ok_res`.

  /** What one inner item becomes: nothing when `f` drops it. */
  function Expand<TI, TO, E>(item: Result<TI, E>, f: TI -> Result<Option<TO>, E>): (out: seq<Result<TO, E>>)
    ensures |out| <= 1
  {
    match item
    case Err(e) => [Err(e)]
    case Ok(v) =>
      match f(v)
      case Ok(Some(x)) => [Ok(x)]
      case Ok(None) => []
      case Err(e) => [Err(e)]
  }

  /** Everything the adapter yields from the inner items `items`. */
  function FilterMapOkRes<TI, TO, E>(items: seq<Result<TI, E>>, f: TI -> Result<Option<TO>, E>): (out: seq<Result<TO, E>>)
    ensures |out| <= |items|
  {
    if items == [] then [] else Expand(items[0], f) + FilterMapOkRes(items[1..], f)
  }

  /** Filter-mapping a concatenation filter-maps each part: an error in the
      first part does not stop the second. */
  lemma {:induction false} FilterMapOkResAppend<TI, TO, E>(a: seq<Result<TI, E>>, b: seq<Result<TI, E>>, f: TI -> Result<Option<TO>, E>)
    ensures FilterMapOkRes(a + b, f) == FilterMapOkRes(a, f) + FilterMapOkRes(b, f)
  {
    if a == [] {
      assert a + b == b;
    } else {
      assert (a + b)[1..] == a[1..] + b;
      FilterMapOkResAppend(a[1..], b, f);
    }
  }

  /** The reference: drop the `Ok(None)` items and unwrap the `Ok(Some(x))`
      ones. */
  function DropNone<TO, E>(rs: seq<Result<Option<TO>, E>>): seq<Result<TO, E>> {
    if rs == [] then []
    else
      var head := match rs[0]
        case Ok(Some(x)) => [Ok(x)]
        case Ok(None) => []
        case Err(e) => [Err(e)];
      head + DropNone(rs[1..])
  }

  /** `filter_map_ok_res(f)` is `map_ok_res(f)` with the `Ok(None)` items
      dropped and the `Ok(Some(x))` ones unwrapped. */
  lemma {:induction false} FilterIsMapThenDrop<TI, TO, E>(items: seq<Result<TI, E>>, f: TI -> Result<Option<TO>, E>)
    ensures FilterMapOkRes(items, f) == DropNone(MapOkRes(items, f))
  {
    if items != [] {
      FilterIsMapThenDrop(items[1..], f);
      var m := MapOkRes(items, f);
      assert m[0] == MapOne(items[0], f) && m[1..] == MapOkRes(items[1..], f);
    }
  }

  /** The number of errors among `rs`. */
  function Errors<T, E>(rs: seq<Result<T, E>>): (n: nat)
    ensures n <= |rs|
  {
    if rs == [] then 0 else (if rs[0].Err? then 1 else 0) + Errors(rs[1..])
  }

  /** No error of the inner iterator is lost: the adapter yields at least as
      many errors as the inner items hold, and its `Ok` items together with
      the inner errors are no more than the inner items. */
  lemma {:induction false} FilterMapOkResErrors<TI, TO, E>(items: seq<Result<TI, E>>, f: TI -> Result<Option<TO>, E>)
    ensures Errors(items) <= Errors(FilterMapOkRes(items, f))
    ensures Errors(items) + |FilterMapOkRes(items, f)| - Errors(FilterMapOkRes(items, f)) <= |items|
  {
    if items != [] {
      FilterMapOkResErrors(items[1..], f);
      ErrorsAppend(Expand(items[0], f), FilterMapOkRes(items[1..], f));
    }
  }

  lemma {:induction false} ErrorsAppend<T, E>(a: seq<Result<T, E>>, b: seq<Result<T, E>>)
    ensures Errors(a + b) == Errors(a) + Errors(b)
  {
    if a == [] {
      assert a + b == b;
    } else {
      assert (a + b)[1..] == a[1..] + b;
      ErrorsAppend(a[1..], b);
    }
  }

  // The adapters as iterators: `next` advances the wrapped iterator.

  /** `MapOkRes`: the wrapped iterator, as the items it has left, and `f`. */
  class MapOkResIter<TI, TO, E> {
    var iter: seq<Result<TI, E>>
    const f: TI -> Result<TO, E>

    /** `map_ok_res`: wraps the iterator and the function and consumes
        nothing. */
    constructor (iter: seq<Result<TI, E>>, f: TI -> Result<TO, E>)
      ensures this.iter == iter && this.f == f
    {
      this.iter := iter;
      this.f := f;
    }

    /** `next`: the first item the adapter has left to yield, after which it
        has the rest left. */
    method Next() returns (item: Option<Result<TO, E>>)
      modifies this
      ensures item.None? <==> MapOkRes(old(iter), f) == []
      ensures item.None? ==> iter == []
      ensures item.Some? ==> MapOkRes(old(iter), f) == [item.value] + MapOkRes(iter, f)
      ensures item.Some? ==> iter == old(iter)[1..]
    {
      if iter == [] {
        return None;
      }
      var head := iter[0];
      iter := iter[1..];
      match head
      case Ok(v) => item := Some(f(v));
      case Err(e) => item := Some(Err(e));
    }
  }

  /** `FilterMapOkRes`: the wrapped iterator, as the items it has left, and
      `f`. */
  class FilterMapOkResIter<TI, TO, E> {
    var iter: seq<Result<TI, E>>
    const f: TI -> Result<Option<TO>, E>

    /** `filter_map_ok_res`: wraps the iterator and the function and
        consumes nothing. */
    constructor (iter: seq<Result<TI, E>>, f: TI -> Result<Option<TO>, E>)
      ensures this.iter == iter && this.f == f
    {
      this.iter := iter;
      this.f := f;
    }

    /** `next`: pulls inner items until one is not dropped, and yields what
        it becomes; at the end of the inner items, yields nothing. */
    method Next() returns (item: Option<Result<TO, E>>)
      modifies this
      ensures item.None? <==> FilterMapOkRes(old(iter), f) == []
      ensures item.None? ==> iter == []
      ensures item.Some? ==> FilterMapOkRes(old(iter), f) == [item.value] + FilterMapOkRes(iter, f)
      ensures |iter| <= |old(iter)|
      ensures item.Some? ==> |iter| < |old(iter)|
    {
      while iter != []
        invariant FilterMapOkRes(old(iter), f) == FilterMapOkRes(iter, f)
        invariant |iter| <= |old(iter)|
        decreases |iter|
      {
        var head := iter[0];
        iter := iter[1..];
        match head {
          case Ok(v) =>
            match f(v) {
              case Ok(Some(x)) => return Some(Ok(x));
              case Ok(None) =>
              case Err(e) => return Some(Err(e));
            }
          case Err(e) => return Some(Err(e));
        }
      }
      return None;
    }
  }

  /** Calling `next` until it yields nothing collects exactly what the
      adapter yields. */
  method CollectMapOkRes<TI, TO, E>(it: MapOkResIter<TI, TO, E>) returns (out: seq<Result<TO, E>>)
    modifies it
    ensures out == MapOkRes(old(it.iter), it.f) && it.iter == []
  {
    out := [];
    while true
      invariant MapOkRes(old(it.iter), it.f) == out + MapOkRes(it.iter, it.f)
      decreases |it.iter|
    {
      var item := it.Next();
      if item.None? {
        assert out + [] == out;
        return;
      }
      out := out + [item.value];
    }
  }

  /** Calling `next` until it yields nothing collects exactly what the
      adapter yields. */
  method CollectFilterMapOkRes<TI, TO, E>(it: FilterMapOkResIter<TI, TO, E>) returns (out: seq<Result<TO, E>>)
    modifies it
    ensures out == FilterMapOkRes(old(it.iter), it.f) && it.iter == []
  {
    out := [];
    while true
      invariant FilterMapOkRes(old(it.iter), it.f) == out + FilterMapOkRes(it.iter, it.f)
      decreases |it.iter|
    {
      var item := it.Next();
      if item.None? {
        assert out + [] == out;
        return;
      }
      out := out + [item.value];
    }
  }
}
