/** src/storage/buffer_pool.cpp: the LRU page cache. */
module BufferPools {
  import opened Results
  import opened Lists

  datatype Page = Page(id: nat, bytes: string, dirty: bool)

  // ----- Recency -----

  /** The distinct ids of a history of uses, most recently used first. */
  function Recency(uses: seq<nat>): seq<nat> {
    if uses == [] then []
    else
      var last := uses[|uses| - 1];
      [last] + Without(Recency(uses[..|uses| - 1]), last)
  }

  lemma RecencyStep(uses: seq<nat>, id: nat)
    ensures Recency(uses + [id]) == [id] + Without(Recency(uses), id)
  {
    assert (uses + [id])[..|uses|] == uses;
  }

  /** Position of the last use of `id`. */
  function LastUse(uses: seq<nat>, id: nat): (i: nat)
    requires id in uses
    ensures i < |uses| && uses[i] == id
  {
    if uses[|uses| - 1] == id then |uses| - 1
    else
      assert uses == uses[..|uses| - 1] + [uses[|uses| - 1]];
      LastUse(uses[..|uses| - 1], id)
  }

  lemma LastUseStep(uses: seq<nat>, last: nat, id: nat)
    requires id in uses + [last]
    ensures id == last ==> LastUse(uses + [last], id) == |uses|
    ensures id != last ==> id in uses && LastUse(uses + [last], id) == LastUse(uses, id)
  {
    assert (uses + [last])[..|uses|] == uses;
  }

  lemma {:induction false} LastUseIsLast(uses: seq<nat>, id: nat, j: nat)
    requires id in uses && LastUse(uses, id) < j < |uses|
    ensures uses[j] != id
  {
    var before, last := uses[..|uses| - 1], uses[|uses| - 1];
    assert uses == before + [last];
    if last != id && j < |before| {
      LastUseStep(before, last, id);
      LastUseIsLast(before, id, j);
    }
  }

  lemma {:induction false} RecencyMembers(uses: seq<nat>)
    ensures NoDuplicates(Recency(uses))
    ensures forall x :: x in Recency(uses) <==> x in uses
  {
    if uses != [] {
      var before, last := uses[..|uses| - 1], uses[|uses| - 1];
      assert uses == before + [last];
      RecencyMembers(before);
      FrontKeepsDistinct(Recency(before), last);
      RecencyStep(before, last);
    }
  }

  /** Each id comes before those used less recently. */
  lemma {:induction false} RecencyOrder(uses: seq<nat>, i: nat, j: nat)
    requires i < j < |Recency(uses)|
    ensures Recency(uses)[i] in uses && Recency(uses)[j] in uses
    ensures LastUse(uses, Recency(uses)[i]) > LastUse(uses, Recency(uses)[j])
  {
    hide Recency, Without, LastUse;
    RecencyMembers(uses);
    var now := Recency(uses);
    assert now[i] in now && now[j] in now;
    var before, last := uses[..|uses| - 1], uses[|uses| - 1];
    assert uses == before + [last];
    RecencyStep(before, last);
    RecencyMembers(before);
    var was := Recency(before);
    LastUseStep(before, last, now[i]);
    LastUseStep(before, last, now[j]);
    assert now[j] == Without(was, last)[j - 1] && Without(was, last)[j - 1] in Without(was, last);
    if i > 0 {
      assert now[i] == Without(was, last)[i - 1] && Without(was, last)[i - 1] in Without(was, last);
      var a, b := RestOrder(was, last, i - 1, j - 1);
      RecencyOrder(before, a, b);
    }
  }

  /** Removal keeps the order of what remains. */
  lemma RestOrder(ids: seq<nat>, id: nat, i: nat, j: nat) returns (a: nat, b: nat)
    requires NoDuplicates(ids) && i < j < |Without(ids, id)|
    ensures a < b < |ids| && ids[a] == Without(ids, id)[i] && ids[b] == Without(ids, id)[j]
  {
    if id in ids {
      var k :| 0 <= k < |ids| && ids[k] == id;
      WithoutAt(ids, k);
      a, b := if i < k then i else i + 1, if j < k then j else j + 1;
    } else {
      WithoutAbsent(ids, id);
      a, b := i, j;
    }
  }

  function Take(ids: seq<nat>, n: nat): seq<nat> {
    if n < |ids| then ids[..n] else ids
  }

  /** The `n` most recently used ids, or all of them. */
  function MostRecent(uses: seq<nat>, n: nat): seq<nat> {
    Take(Recency(uses), n)
  }

  lemma TakeHit(ids: seq<nat>, n: nat, id: nat)
    requires NoDuplicates(ids) && id in Take(ids, n)
    ensures Take([id] + Without(ids, id), n) == [id] + Without(Take(ids, n), id)
  {
    var kept := Take(ids, n);
    var k :| 0 <= k < |kept| && kept[k] == id;
    WithoutAt(ids, k);
    WithoutAt(kept, k);
    hide Without, NoDuplicates;
    if n < |ids| {
      TakeSplice(ids, n, k, id);
    }
  }

  lemma TakeSplice(ids: seq<nat>, n: nat, k: nat, id: nat)
    requires k < n < |ids|
    ensures ([id] + (ids[..k] + ids[k + 1..]))[..n] == [id] + (ids[..n][..k] + ids[..n][k + 1..])
  {
  }

  lemma TakeMiss(ids: seq<nat>, n: nat, id: nat)
    requires NoDuplicates(ids) && n > 0 && id !in Take(ids, n)
    ensures Take([id] + Without(ids, id), n) == Take([id] + Take(ids, n), n)
  {
    if id in ids {
      var k :| 0 <= k < |ids| && ids[k] == id;
      WithoutAt(ids, k);
      hide Without;
      assert forall i :: 0 <= i < |Take(ids, n)| ==> ids[i] in Take(ids, n);
      assert n <= k;
      assert ([id] + (ids[..k] + ids[k + 1..]))[..n] == [id] + ids[..n - 1];
      assert ([id] + ids[..n])[..n] == [id] + ids[..n - 1];
    } else {
      WithoutAbsent(ids, id);
      hide Without;
      if n < |ids| {
        assert ([id] + ids)[..n] == [id] + ids[..n - 1];
        assert ([id] + ids[..n])[..n] == [id] + ids[..n - 1];
      }
    }
  }

  /** Using an id that is among the `n` most recent moves it to the front. */
  lemma UseHit(uses: seq<nat>, n: nat, id: nat)
    requires id in MostRecent(uses, n)
    ensures MostRecent(uses + [id], n) == [id] + Without(MostRecent(uses, n), id)
  {
    hide Recency, Take;
    RecencyMembers(uses);
    RecencyStep(uses, id);
    TakeHit(Recency(uses), n, id);
  }

  /** Using any other id puts it in front and drops whatever no longer fits. */
  lemma UseMiss(uses: seq<nat>, n: nat, id: nat)
    requires n > 0 && id !in MostRecent(uses, n)
    ensures MostRecent(uses + [id], n) == Take([id] + MostRecent(uses, n), n)
  {
    hide Recency, Take;
    RecencyMembers(uses);
    RecencyStep(uses, id);
    TakeMiss(Recency(uses), n, id);
  }

  lemma MostRecentDistinct(uses: seq<nat>, n: nat)
    ensures NoDuplicates(MostRecent(uses, n))
  {
    RecencyMembers(uses);
  }

  // ----- The pool -----

  class BufferPool {
    const capacity: nat
    var lru: seq<nat>
    var pages: map<nat, Page>
    /** Every put, and every get that hit. */
    ghost var uses: seq<nat>
    /** The page last put under each id. */
    ghost var latest: map<nat, Page>

    ghost predicate Valid()
      reads this
    {
      && capacity > 0
      && lru == MostRecent(uses, capacity)
      && (forall id :: id in pages <==> id in lru)
      && (forall id :: id in pages ==> id in latest && pages[id] == latest[id])
    }

    constructor (capacity: nat)
      requires capacity > 0
      ensures Valid() && this.capacity == capacity && uses == [] && latest == map[]
    {
      this.capacity := capacity;
      this.lru := [];
      this.pages := map[];
      this.uses := [];
      this.latest := map[];
    }

    method Put(page: Page)
      requires Valid()
      modifies this
      ensures Valid() && uses == old(uses) + [page.id] && latest == old(latest)[page.id := page]
      ensures page.id in pages && pages[page.id] == page
    {
      hide MostRecent, Without, NoDuplicates, Take;
      if page.id in pages {
        pages := pages[page.id := page];
        UseHit(uses, capacity, page.id);
        Touch(page.id);
      } else {
        UseMiss(uses, capacity, page.id);
        MostRecentDistinct(uses, capacity);
        FrontIsDistinct(lru, page.id);
        lru := [page.id] + lru;
        pages := pages[page.id := page];
        FrontIsTaken(lru, capacity);
        EvictIfNeeded();
      }
      uses := uses + [page.id];
      latest := latest[page.id := page];
    }

    method Get(id: nat) returns (page: Option<Page>)
      requires Valid()
      modifies this
      ensures Valid() && latest == old(latest) && pages == old(pages)
      ensures page == if id in old(pages) then Some(old(latest)[id]) else None
      ensures uses == if id in old(pages) then old(uses) + [id] else old(uses)
    {
      hide MostRecent, Without;
      if id !in pages {
        return None;
      }
      UseHit(uses, capacity, id);
      Touch(id);
      uses := uses + [id];
      return Some(pages[id]);
    }

    /** Splices an id to the front of the list. */
    method Touch(id: nat)
      modifies this`lru
      ensures lru == [id] + Without(old(lru), id)
    {
      lru := [id] + Without(lru, id);
    }

    /** Drops least recently used pages until the pool fits. */
    method EvictIfNeeded()
      requires capacity > 0 && NoDuplicates(lru) && forall id :: id in pages <==> id in lru
      modifies this`lru, this`pages
      ensures lru == Take(old(lru), capacity)
      ensures forall id :: id in pages <==> id in lru
      ensures forall id :: id in pages ==> id in old(pages) && pages[id] == old(pages)[id]
    {
      ListedAll(lru, pages);
      lru, pages := Evict(lru, pages, capacity);
    }
  }

  /** The list names exactly the pages kept, each once, and each is the one it was. */
  ghost predicate Listed(lru: seq<nat>, pages: map<nat, Page>, stored: map<nat, Page>) {
    && NoDuplicates(lru) && |lru| == |pages|
    && (forall id :: id in pages <==> id in lru)
    && (forall id :: id in pages ==> id in stored && pages[id] == stored[id])
  }

  lemma ListedAll(lru: seq<nat>, pages: map<nat, Page>)
    requires NoDuplicates(lru) && forall id :: id in pages <==> id in lru
    ensures Listed(lru, pages, pages)
  {
    hide NoDuplicates;
    DistinctCount(lru, pages.Keys);
  }

  /** Dropping the last page of the list. */
  lemma ListedLess(lru: seq<nat>, pages: map<nat, Page>, stored: map<nat, Page>)
    requires lru != [] && Listed(lru, pages, stored)
    ensures Listed(lru[..|lru| - 1], pages - {lru[|lru| - 1]}, stored)
  {
    var front, last := lru[..|lru| - 1], lru[|lru| - 1];
    ShorterList(lru, front, last);
    hide NoDuplicates;
    OneLess(pages, last);
  }

  lemma OneLess(pages: map<nat, Page>, last: nat)
    requires last in pages
    ensures |pages - {last}| == |pages| - 1
    ensures forall id :: id in pages - {last} <==> id in pages && id != last
  {
    assert (pages - {last}).Keys == pages.Keys - {last};
  }

  /** The eviction loop: the least recently used page goes until the pool fits. */
  method Evict(all: seq<nat>, stored: map<nat, Page>, capacity: nat) returns (lru: seq<nat>, pages: map<nat, Page>)
    requires Listed(all, stored, stored)
    ensures lru == Take(all, capacity) && Listed(lru, pages, stored)
  {
    hide NoDuplicates, Listed;
    lru, pages := all, stored;
    ListedSize(lru, pages, stored);
    while |pages| > capacity
      invariant Listed(lru, pages, stored) && |lru| == |pages| <= |all|
      invariant lru == all[..|lru|] && (|lru| >= capacity || lru == all)
      decreases |lru|
    {
      ListedLess(lru, pages, stored);
      var evicted := lru[|lru| - 1];
      lru := lru[..|lru| - 1];
      pages := pages - {evicted};
      ListedSize(lru, pages, stored);
    }
  }

  lemma ListedSize(lru: seq<nat>, pages: map<nat, Page>, stored: map<nat, Page>)
    requires Listed(lru, pages, stored)
    ensures |lru| == |pages|
  {
  }

  lemma FrontIsTaken(ids: seq<nat>, n: nat)
    requires ids != [] && n > 0
    ensures ids[0] in Take(ids, n)
  {
    assert Take(ids, n)[0] == ids[0];
  }

  lemma FrontIsDistinct(ids: seq<nat>, id: nat)
    requires NoDuplicates(ids) && id !in ids
    ensures NoDuplicates([id] + ids)
  {
  }

  lemma ShorterList(before: seq<nat>, after: seq<nat>, last: nat)
    requires before == after + [last] && NoDuplicates(before)
    ensures NoDuplicates(after) && last !in after && forall id :: id in before <==> id in after || id == last
  {
    assert forall i :: 0 <= i < |after| ==> before[i] == after[i];
    assert before[|after|] == last;
  }

  /**
   What every reachable pool holds: as many of the distinct ids used as fit, and every id it holds was used
   more recently than every id it does not.
   */
  lemma PoolHoldsMostRecent(uses: seq<nat>, capacity: nat, kept: nat, dropped: nat)
    requires kept in MostRecent(uses, capacity) && dropped in uses && dropped !in MostRecent(uses, capacity)
    ensures |MostRecent(uses, capacity)| == capacity < |Recency(uses)|
    ensures kept in uses && LastUse(uses, kept) > LastUse(uses, dropped)
  {
    hide Recency, LastUse;
    RecencyMembers(uses);
    var all, front := Recency(uses), MostRecent(uses, capacity);
    var i :| 0 <= i < |front| && front[i] == kept;
    assert dropped in all;
    var j :| 0 <= j < |all| && all[j] == dropped;
    assert all[i] == kept;
    assert forall k :: 0 <= k < |front| ==> front[k] == all[k] && front[k] in front;
    RecencyOrder(uses, i, j);
  }
}
