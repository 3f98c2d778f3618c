/** What a skip/take key lister over a cursor-based listing returns.

    Both file services answer "page `pageNumber` of size `pageSize`" by walking the
    provider's listing from its start, discarding the first
    `(pageNumber - 1) * pageSize` keys and keeping the next `pageSize`. This module
    gives the listing as a sequence of backend answers, the keys it delivers, the
    page the walk must return and the number of answers the walk must fetch, and
    proves what those definitions promise. */
module Paging {
  import opened Wrappers
  import opened Errors
  import opened Int32

  /** The backend's answer to one list request: a batch of keys (possibly empty)
      with the continuation token for the next request, or a failed request. */
  datatype ListResponse =
    | Listed(keys: seq<string>, nextToken: Option<string>)
    | ListFailed(status: int)

  /** A token asks for a further request unless it is null or empty
      (`!string.IsNullOrEmpty`). */
  predicate HasToken(token: Option<string>)
  {
    token.Some? && token.value != ""
  }

  /** Everything a listing delivers: its keys in order, and the status of the
      failure that ended it, if one did. */
  datatype Enumeration = Enumeration(keys: seq<string>, failure: Option<int>)

  /** The listing answered by `rs`, request after request. It ends at the first
      failed request or at the first batch without a continuation token; when the
      answers run out, the last one given stands for the end. */
  function Enumerate(rs: seq<ListResponse>): Enumeration
  {
    if rs == [] then Enumeration([], None)
    else match rs[0]
      case ListFailed(status) => Enumeration([], Some(status))
      case Listed(keys, token) =>
        if !HasToken(token) then Enumeration(keys, None)
        else
          var rest := Enumerate(rs[1..]);
          Enumeration(keys + rest.keys, rest.failure)
  }

  function Min(a: int, b: int): int
  {
    if a <= b then a else b
  }

  /** Keys actually discarded for a skip count: a negative count (reachable only
      through 32-bit wrap-around) discards none, since no counter is below it. */
  function Lo(skip: int): nat
  {
    if skip < 0 then 0 else skip
  }

  /** The index of the first key of page `pageNumber`, computed without overflow:
      page 1 starts at 0, and each page ends where the next one starts. */
  function StartIndex(pageNumber: int, pageSize: int): (start: int)
    ensures pageNumber >= 1 && pageSize >= 0 ==> start >= 0
    ensures pageNumber == 1 ==> start == 0
    ensures start + pageSize == pageNumber * pageSize
  {
    (pageNumber - 1) * pageSize
  }

  /** The same index as the services compute it: a product of two `int`s, which
      wraps around modulo 2^32 (`pageNumber - 1` itself cannot overflow). */
  function StartIndexAsWritten(pageNumber: int32, pageSize: int32): int32
    requires pageNumber > 0
  {
    Wrap((pageNumber as int - 1) * pageSize as int)
  }

  /** The keys left after discarding `skip` and keeping at most `size`. */
  function Window(all: seq<string>, skip: int, size: nat): (w: seq<string>)
    ensures |w| == if Lo(skip) >= |all| then 0 else Min(size, |all| - Lo(skip))
    ensures forall k :: 0 <= k < |w| ==> w[k] == all[Lo(skip) + k]
  {
    if Lo(skip) >= |all| then [] else all[Lo(skip) .. Min(Lo(skip) + size, |all|)]
  }

  /** The outcome of a walk over `e` that discards `skip` keys and stops with
      `size` kept: the page, unless the listing failed before the page was full,
      in which case the keys gathered so far are dropped. */
  function PageOf(e: Enumeration, skip: int, size: nat): Result<seq<string>, Error>
  {
    if e.failure.Some? && |e.keys| < Lo(skip) + size then Failure(BackendError(e.failure.value))
    else Success(Window(e.keys, skip, size))
  }

  /** How many requests a walk issues when it stops as soon as it has examined
      `need` keys, or when the listing ends. */
  function Consumed(rs: seq<ListResponse>, need: int): (c: nat)
    ensures c <= |rs|
    ensures rs != [] ==> c >= 1
  {
    if rs == [] then 0
    else match rs[0]
      case ListFailed(_) => 1
      case Listed(keys, token) =>
        if |keys| >= need || !HasToken(token) then 1
        else 1 + Consumed(rs[1..], need - |keys|)
  }

  // ---------------------------------------------------------------------------
  // Steps of a walk, used by the loops of both services

  /** Examining one more key `x` after `p`: it is discarded while the skip count is
      not reached, appended while the page is not full, and ignored after. */
  lemma WindowSnoc(p: seq<string>, x: string, skip: int, size: nat)
    ensures Window(p + [x], skip, size) ==
      if |p| < Lo(skip) then []
      else if |p| < Lo(skip) + size then Window(p, skip, size) + [x]
      else Window(p, skip, size)
  {
    var lo := Lo(skip);
    if lo <= |p| < lo + size {
      assert Window(p, skip, size) == p[lo..];
      assert Window(p + [x], skip, size) == (p + [x])[lo..];
      assert (p + [x])[lo..] == p[lo..] + [x];
    } else if |p| >= lo + size {
      assert (p + [x])[lo .. lo + size] == p[lo .. lo + size];
    }
  }

  /** Once a page is full, further keys do not change it. */
  lemma WindowFull(a: seq<string>, b: seq<string>, skip: int, size: nat)
    requires |Window(a, skip, size)| == size
    ensures Window(a + b, skip, size) == Window(a, skip, size)
  {
    if size > 0 {
      assert (a + b)[Lo(skip) .. Lo(skip) + size] == a[Lo(skip) .. Lo(skip) + size];
    }
  }

  /** Unfolding the listing, and the requests a walk needs, at request `i`. */
  lemma EnumerateAt(rs: seq<ListResponse>, i: nat, need: int)
    requires i < |rs|
    ensures Enumerate(rs[i..]) ==
      match rs[i]
      case ListFailed(status) => Enumeration([], Some(status))
      case Listed(keys, token) =>
        if !HasToken(token) then Enumeration(keys, None)
        else Enumeration(keys + Enumerate(rs[i + 1..]).keys, Enumerate(rs[i + 1..]).failure)
    ensures Consumed(rs[i..], need) ==
      match rs[i]
      case ListFailed(_) => 1
      case Listed(keys, token) =>
        if |keys| >= need || !HasToken(token) then 1 else 1 + Consumed(rs[i + 1..], need - |keys|)
  {
    assert rs[i..][0] == rs[i];
    assert rs[i..][1..] == rs[i + 1..];
  }

  /** The state of a walk over `rs` that has fetched `i` responses, all of them
      batches with a continuation token, and examined the keys `seen`: the rest of
      the listing is what the remaining responses deliver, and so are the
      remaining requests the walk needs. */
  ghost predicate WalkAt(rs: seq<ListResponse>, i: nat, seen: seq<string>, skip: int, size: nat)
  {
    && i <= |rs|
    && Enumerate(rs).keys == seen + Enumerate(rs[i..]).keys
    && Enumerate(rs).failure == Enumerate(rs[i..]).failure
    && Consumed(rs, Lo(skip) + size) == i + Consumed(rs[i..], Lo(skip) + size - |seen|)
  }

  lemma WalkStart(rs: seq<ListResponse>, skip: int, size: nat)
    ensures WalkAt(rs, 0, [], skip, size)
  {
    assert rs[0..] == rs;
  }

  /** A batch with a token that leaves the page short moves the walk on. */
  lemma WalkNext(rs: seq<ListResponse>, i: nat, seen: seq<string>, skip: int, size: nat)
    requires WalkAt(rs, i, seen, skip, size) && i < |rs|
    requires rs[i].Listed? && HasToken(rs[i].nextToken)
    requires |Window(seen + rs[i].keys, skip, size)| < size
    ensures WalkAt(rs, i + 1, seen + rs[i].keys, skip, size)
  {
    EnumerateAt(rs, i, Lo(skip) + size - |seen|);
  }

  /** A walk that fills the page after examining `examined` keys of batch `i`
      returns that page, having fetched `i + 1` responses. */
  lemma WalkFull(rs: seq<ListResponse>, i: nat, seen: seq<string>, examined: nat, skip: int, size: nat)
    requires WalkAt(rs, i, seen, skip, size) && i < |rs| && size >= 1
    requires rs[i].Listed? && examined <= |rs[i].keys|
    requires |Window(seen, skip, size)| < size
    requires |Window(seen + rs[i].keys[..examined], skip, size)| == size
    ensures PageOf(Enumerate(rs), skip, size) == Success(Window(seen + rs[i].keys[..examined], skip, size))
    ensures Consumed(rs, Lo(skip) + size) == i + 1
  {
    var items := rs[i].keys;
    var now := seen + items[..examined];
    var rest := Enumerate(rs[i..]).keys[examined..];
    BatchSplits(rs, i, examined);
    assert Enumerate(rs).keys == now + rest by {
      assert Enumerate(rs).keys == seen + (items[..examined] + rest);
    }
    WindowFull(now, rest, skip, size);
    ConsumedFull(rs, i, seen, examined, skip, size);
  }

  /** The keys delivered from request `i` on begin with batch `i`'s keys. */
  lemma BatchSplits(rs: seq<ListResponse>, i: nat, examined: nat)
    requires i < |rs| && rs[i].Listed? && examined <= |rs[i].keys|
    ensures Enumerate(rs[i..]).keys == rs[i].keys[..examined] + Enumerate(rs[i..]).keys[examined..]
    ensures Enumerate(rs[i..]).keys[..examined] == rs[i].keys[..examined]
  {
    EnumerateAt(rs, i, 0);
    var items := rs[i].keys;
    var tail := if HasToken(rs[i].nextToken) then Enumerate(rs[i + 1..]).keys else [];
    assert Enumerate(rs[i..]).keys == items + tail;
  }

  /** A page filled inside batch `i` has needed exactly `i + 1` requests. */
  lemma ConsumedFull(rs: seq<ListResponse>, i: nat, seen: seq<string>, examined: nat, skip: int, size: nat)
    requires WalkAt(rs, i, seen, skip, size) && i < |rs| && size >= 1
    requires rs[i].Listed? && examined <= |rs[i].keys|
    requires |Window(seen, skip, size)| < size
    requires |Window(seen + rs[i].keys[..examined], skip, size)| == size
    ensures Consumed(rs, Lo(skip) + size) == i + 1
  {
    EnumerateAt(rs, i, Lo(skip) + size - |seen|);
  }

  /** A walk whose batch `i` carries no token and leaves the page short returns
      the short page, having fetched `i + 1` responses. */
  lemma WalkEnd(rs: seq<ListResponse>, i: nat, seen: seq<string>, skip: int, size: nat)
    requires WalkAt(rs, i, seen, skip, size) && i < |rs|
    requires rs[i].Listed? && !HasToken(rs[i].nextToken)
    requires |Window(seen + rs[i].keys, skip, size)| < size
    ensures PageOf(Enumerate(rs), skip, size) == Success(Window(seen + rs[i].keys, skip, size))
    ensures Consumed(rs, Lo(skip) + size) == i + 1
  {
    EnumerateAt(rs, i, Lo(skip) + size - |seen|);
  }

  /** A walk whose request `i` fails before the page is full fails with that
      status, having fetched `i + 1` responses. */
  lemma WalkFailed(rs: seq<ListResponse>, i: nat, seen: seq<string>, skip: int, size: nat)
    requires WalkAt(rs, i, seen, skip, size) && i < |rs| && size >= 1
    requires rs[i].ListFailed?
    requires |Window(seen, skip, size)| < size
    ensures PageOf(Enumerate(rs), skip, size) == Failure(BackendError(rs[i].status))
    ensures Consumed(rs, Lo(skip) + size) == i + 1
  {
    EnumerateAt(rs, i, Lo(skip) + size - |seen|);
  }

  /** A walk that runs out of responses returns the page it holds. */
  lemma WalkExhausted(rs: seq<ListResponse>, seen: seq<string>, skip: int, size: nat)
    requires WalkAt(rs, |rs|, seen, skip, size)
    ensures PageOf(Enumerate(rs), skip, size) == Success(Window(seen, skip, size))
    ensures Consumed(rs, Lo(skip) + size) == |rs|
  {
    var none := rs[|rs|..];
    assert none == [];
    assert Enumerate(none) == Enumeration([], None);
    assert Consumed(none, Lo(skip) + size - |seen|) == 0;
    assert Enumerate(rs) == Enumeration(seen, None);
  }

  // ---------------------------------------------------------------------------
  // What the page is

  /** A page holds at most `size` keys: exactly `size` when the listing has that
      many beyond the skipped ones, otherwise all that remain, and none past the end. */
  lemma PageLength(e: Enumeration, skip: int, size: nat)
    requires PageOf(e, skip, size).Success?
    ensures |PageOf(e, skip, size).value| <= size
    ensures |PageOf(e, skip, size).value| == if |e.keys| <= Lo(skip) then 0 else Min(size, |e.keys| - Lo(skip))
  {
  }

  /** A page that starts at or past the end of a listing that did not fail is
      empty, not an error; in particular every page of an empty container is empty. */
  lemma PastEndIsEmpty(e: Enumeration, pageNumber: int, pageSize: nat)
    requires e.failure.None? && StartIndex(pageNumber, pageSize) >= |e.keys|
    ensures PageOf(e, StartIndex(pageNumber, pageSize), pageSize) == Success([])
  {
  }

  /** Page 1 is the first `min(pageSize, N)` keys. */
  lemma FirstPage(e: Enumeration, pageSize: nat)
    requires e.failure.None?
    ensures PageOf(e, StartIndex(1, pageSize), pageSize) == Success(e.keys[..Min(pageSize, |e.keys|)])
  {
  }

  /** A walk fails exactly when the listing failed before the page was full. */
  lemma FailsIffListingFailsEarly(e: Enumeration, skip: int, size: nat)
    ensures PageOf(e, skip, size).Failure? <==> e.failure.Some? && |e.keys| < Lo(skip) + size
    ensures PageOf(e, skip, size).Failure? ==> PageOf(e, skip, size).error == BackendError(e.failure.value)
  {
  }

  /** Pages 1 to k in order, each asked for on its own with the same size. */
  function PagesThrough(all: seq<string>, size: nat, k: nat): seq<string>
  {
    if k == 0 then []
    else PagesThrough(all, size, k - 1) + PageOf(Enumeration(all, None), StartIndex(k, size), size).value
  }

  /** Consecutive pages tile the listing: pages 1 to k, concatenated, are exactly
      its first `min(N, k * size)` keys, with no key missing or repeated. */
  lemma {:induction false} PagesTile(all: seq<string>, size: nat, k: nat)
    requires size >= 1
    ensures PagesThrough(all, size, k) == all[..Min(|all|, k * size)]
  {
    if k > 0 {
      PagesTile(all, size, k - 1);
      var lo := StartIndex(k, size);
      var page := PageOf(Enumeration(all, None), lo, size).value;
      assert page == Window(all, lo, size);
      if lo < |all| {
        var hi := Min(lo + size, |all|);
        assert page == all[lo .. hi];
        assert all[..lo] + all[lo .. hi] == all[..hi];
      }
    }
  }

  /** Splits a flat listing into batches: every batch but the last carries a token. */
  function FromBatches(batches: seq<seq<string>>): seq<ListResponse>
  {
    if batches == [] then []
    else if |batches| == 1 then [Listed(batches[0], None)]
    else [Listed(batches[0], Some("next"))] + FromBatches(batches[1..])
  }

  function Flatten(batches: seq<seq<string>>): seq<string>
  {
    if batches == [] then [] else batches[0] + Flatten(batches[1..])
  }

  /** A listing made of batches delivers their concatenation and does not fail. */
  lemma {:induction false} EnumerateBatches(batches: seq<seq<string>>)
    ensures Enumerate(FromBatches(batches)) == Enumeration(Flatten(batches), None)
  {
    if |batches| == 1 {
      assert Flatten(batches[1..]) == [];
    } else if |batches| > 1 {
      EnumerateBatches(batches[1..]);
      assert FromBatches(batches)[1..] == FromBatches(batches[1..]);
    }
  }

  /** How the listing is cut into batches does not matter: two batchings of the
      same keys give the same page. */
  lemma PageIgnoresBatching(b1: seq<seq<string>>, b2: seq<seq<string>>, skip: int, size: nat)
    requires Flatten(b1) == Flatten(b2)
    ensures PageOf(Enumerate(FromBatches(b1)), skip, size) == PageOf(Enumerate(FromBatches(b2)), skip, size)
  {
    EnumerateBatches(b1);
    EnumerateBatches(b2);
  }

  // ---------------------------------------------------------------------------
  // How much of the listing a walk fetches

  /** The requests a walk issues already decide its outcome: either they are the
      whole listing, or they delivered the `need` keys the page needs, without
      failing, as a prefix of the listing. */
  lemma {:induction false} ConsumedSuffices(rs: seq<ListResponse>, need: int)
    ensures Consumed(rs, need) <= |rs|
    ensures var f := Enumerate(rs[..Consumed(rs, need)]);
      || f == Enumerate(rs)
      || (f.failure.None? && |f.keys| >= need && f.keys <= Enumerate(rs).keys)
  {
    if rs != [] {
      assert rs[..1] == [rs[0]];
      match rs[0]
      case ListFailed(_) =>
      case Listed(keys, token) =>
        if |keys| >= need || !HasToken(token) {
          assert Enumerate(rs[..1]) == Enumeration(keys, if HasToken(token) then Enumerate([]).failure else None);
        } else {
          var c := Consumed(rs[1..], need - |keys|);
          ConsumedSuffices(rs[1..], need - |keys|);
          assert rs[..1 + c][0] == rs[0];
          assert rs[..1 + c][1..] == rs[1..][..c];
        }
    }
  }

  /** No request is wasted: before the last request a walk issues, every answer
      carried a token and the keys gathered were fewer than `need`. */
  lemma {:induction false} ConsumedNecessary(rs: seq<ListResponse>, need: int)
    requires need >= 1
    ensures var c := Consumed(rs, need);
      && (forall k :: 0 <= k < c - 1 ==> rs[k].Listed? && HasToken(rs[k].nextToken))
      && (c > 0 ==> |Enumerate(rs[..c - 1]).keys| < need)
  {
    if rs != [] && rs[0].Listed? && |rs[0].keys| < need && HasToken(rs[0].nextToken) {
      var keys := rs[0].keys;
      var c := Consumed(rs[1..], need - |keys|);
      ConsumedNecessary(rs[1..], need - |keys|);
      if c > 0 {
        assert rs[..c][0] == rs[0];
        assert rs[..c][1..] == rs[1..][..c - 1];
      }
    }
  }

  /** Responses after the last one a walk fetches cannot change its outcome. */
  lemma UnfetchedIrrelevant(rs: seq<ListResponse>, skip: int, size: nat)
    ensures var c := Consumed(rs, Lo(skip) + size);
      c <= |rs| && PageOf(Enumerate(rs[..c]), skip, size) == PageOf(Enumerate(rs), skip, size)
  {
    var need := Lo(skip) + size;
    ConsumedSuffices(rs, need);
    var f := Enumerate(rs[..Consumed(rs, need)]);
    if f != Enumerate(rs) {
      var all := Enumerate(rs).keys;
      assert f.keys + all[|f.keys|..] == all;
      WindowFull(f.keys, all[|f.keys|..], skip, size);
    }
  }

  /** Five keys listed two per batch: page 2 of size 2 is ["c", "d"], page 3 is
      ["e"], and page 4 is empty. */
  lemma FiveKeysInBatchesOfTwo()
    ensures var rs := FromBatches([["a", "b"], ["c", "d"], ["e"]]);
      && PageOf(Enumerate(rs), StartIndex(2, 2), 2) == Success(["c", "d"])
      && PageOf(Enumerate(rs), StartIndex(3, 2), 2) == Success(["e"])
      && PageOf(Enumerate(rs), StartIndex(4, 2), 2) == Success([])
  {
    var batches := [["a", "b"], ["c", "d"], ["e"]];
    EnumerateBatches(batches);
    assert Flatten(batches) == ["a", "b", "c", "d", "e"] by {
      assert batches[1..] == [["c", "d"], ["e"]];
      assert batches[1..][1..] == [["e"]];
    }
    var all := ["a", "b", "c", "d", "e"];
    assert Window(all, 2, 2) == all[2..4] == ["c", "d"];
    assert Window(all, 4, 2) == all[4..5] == ["e"];
  }

  // ---------------------------------------------------------------------------
  // 32-bit wrap-around of the skip count

  /** With the product computed in 32 bits, page 65537 of size 65536 starts at
      index 0 instead of 2^32. */
  lemma StartIndexOverflows()
    ensures StartIndexAsWritten(65537, 65536) == 0
    ensures StartIndex(65537, 65536) == TwoTo32
  {
    assert (65537 - 1) * 65536 == TwoTo32;
  }

  /** The index as written is the exact one exactly when the exact product of two
      positive arguments fits in an `int`. */
  lemma AsWrittenInRange(pageNumber: int32, pageSize: int32)
    requires pageNumber > 0 && pageSize > 0
    ensures StartIndexAsWritten(pageNumber, pageSize) as int == StartIndex(pageNumber as int, pageSize as int)
        <==> StartIndex(pageNumber as int, pageSize as int) < TwoTo31
  {
  }

  /** A skip count that wrapped to a negative value discards nothing, so the walk
      returns page 1. */
  lemma NegativeSkipIsFirstPage(e: Enumeration, pageNumber: int32, pageSize: int32)
    requires pageNumber > 0 && pageSize > 0 && StartIndexAsWritten(pageNumber, pageSize) < 0
    ensures StartIndex(pageNumber as int, pageSize as int) >= TwoTo31
    ensures PageOf(e, StartIndexAsWritten(pageNumber, pageSize) as int, pageSize as nat)
         == PageOf(e, StartIndex(1, pageSize as int), pageSize as nat)
  {
  }

  /** So, as written, a page far past the end of a short listing repeats page 1;
      with the index computed without overflow it is empty, as intended. */
  lemma OverflowRepeatsFirstPage(all: seq<string>)
    requires 0 < |all| <= TwoTo32
    ensures PageOf(Enumeration(all, None), StartIndexAsWritten(65537, 65536) as int, 65536)
         == PageOf(Enumeration(all, None), StartIndex(1, 65536), 65536)
    ensures PageOf(Enumeration(all, None), StartIndex(1, 65536), 65536) != Success([])
    ensures PageOf(Enumeration(all, None), StartIndex(65537, 65536), 65536) == Success([])
  {
    StartIndexOverflows();
    var w := Window(all, 0, 65536);
    assert w[0] == all[0];
  }
}
