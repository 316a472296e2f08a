/** Reference accounting of the process table: what every reachable table satisfies,
    and why each step of each operation keeps it. */
module CourseProcessAccounting {
  import opened Common
  import opened CourseProcessTypes
  import opened CourseProcessSpec

  /** All mapped references to a page id, as (slot, index) pairs. */
  ghost function Refs(procs: seq<Process<PageRef>>, id: nat): (r: set<(nat, nat)>)
  {
    set p: nat, i: nat |
      p < |procs| && i < |procs[p].pages| && procs[p].pages[i].mapped && procs[p].pages[i].id == id
      :: (p, i)
  }

  ghost function UsedPages(pages: seq<CowPage>): (r: set<nat>)
  {
    set k: nat | k < |pages| && pages[k].used
  }

  ghost predicate Clean(process: Process<PageRef>)
  {
    forall i :: 0 <= i < |process.pages| ==> !process.pages[i].mapped
  }

  /** Pids are unique, were all handed out, and unused slots hold no page. */
  ghost predicate PidsOk(t: Table)
  {
    && t.nextPid < UINT32_RANGE
    && (forall p :: 0 <= p < |t.procs| && t.procs[p].used ==> 0 < t.procs[p].pid < Issued(t.nextPid))
    && (forall p, q :: 0 <= p < q < |t.procs| && t.procs[p].used && t.procs[q].used ==>
          t.procs[p].pid != t.procs[q].pid)
    && (forall p :: 0 <= p < |t.procs| && !t.procs[p].used ==> Clean(t.procs[p]))
  }

  /** Page ids are unique and were all handed out. */
  ghost predicate IdsOk(t: Table)
  {
    && t.nextPageId < UINT32_RANGE
    && (forall k :: 0 <= k < |t.pages| && t.pages[k].used ==> 0 < t.pages[k].id < Issued(t.nextPageId))
    && (forall k, l :: 0 <= k < l < |t.pages| && t.pages[k].used && t.pages[l].used ==>
          t.pages[k].id != t.pages[l].id)
  }

  /** A mapped reference resolves; it is writable exactly when it is not COW; writable means sole owner,
      and a count of one. */
  ghost predicate RefOk(t: Table, p: nat, i: nat)
    requires p < |t.procs| && i < |t.procs[p].pages|
  {
    var ref := t.procs[p].pages[i];
    ref.mapped ==>
      && FindPage(t.pages, ref.id).Some?
      && ref.writable == !ref.cow
      && (ref.writable ==>
            Refs(t.procs, ref.id) == {(p, i)} && t.pages[FindPage(t.pages, ref.id).value].refcount == 1)
  }

  ghost predicate RefsOk(t: Table)
  {
    forall p, i :: 0 <= p < |t.procs| && 0 <= i < |t.procs[p].pages| ==> RefOk(t, p, i)
  }

  /** How many more references a used page counts than there are. */
  ghost function Excess(t: Table, k: nat): (r: int)
    requires k < |t.pages|
  {
    if t.pages[k].used then t.pages[k].refcount - |Refs(t.procs, t.pages[k].id)| else 0
  }

  /** A used page counts at least one reference, and none too few. */
  ghost predicate CountOk(t: Table, k: nat)
    requires k < |t.pages|
  {
    t.pages[k].used ==> t.pages[k].refcount > 0 && Excess(t, k) >= 0
  }

  ghost predicate CountsOk(t: Table)
  {
    forall k :: 0 <= k < |t.pages| ==> CountOk(t, k)
  }

  /** Every used page counts exactly the references to it. */
  ghost predicate CountsExact(t: Table)
  {
    forall k :: 0 <= k < |t.pages| ==> Excess(t, k) == 0
  }

  ghost predicate SameExcess(t: Table, u: Table)
  {
    |t.pages| == |u.pages| && forall k :: 0 <= k < |t.pages| ==> Excess(u, k) == Excess(t, k)
  }

  ghost predicate StatsOk(t: Table)
  {
    && t.stats.faults == t.stats.copied
    && |UsedPages(t.pages)| + t.stats.saved + t.stats.released == t.stats.mapped + t.stats.copied
    && (forall k :: 0 <= k < |t.pages| && t.pages[k].used ==> t.pages[k].refcount <= t.stats.peak)
  }

  ghost predicate Accounted(t: Table)
  {
    Shaped(t) && PidsOk(t) && IdsOk(t) && RefsOk(t) && CountsOk(t)
  }

  ghost predicate Inv(t: Table)
  {
    Accounted(t) && StatsOk(t)
  }

  /** A DEAD process holds no page. */
  ghost predicate DeadClean(t: Table)
  {
    forall p :: 0 <= p < |t.procs| && t.procs[p].used && t.procs[p].state == Dead ==> Clean(t.procs[p])
  }

  // ----- references as a set

  lemma RefsAfterSet(t: Table, p: nat, i: nat, ref: PageRef, id: nat)
    requires Shaped(t) && p < MAX_PROCESSES && i < MAX_USER_PAGES
    ensures Refs(SetRef(t, p, i, ref).procs, id) ==
            Refs(t.procs, id) - {(p, i)} + (if ref.mapped && ref.id == id then {(p, i)} else {})
  {
    var u := SetRef(t, p, i, ref);
    forall q: nat, j: nat
      ensures (q, j) in Refs(u.procs, id) <==>
              (q, j) in Refs(t.procs, id) - {(p, i)} + (if ref.mapped && ref.id == id then {(p, i)} else {})
    {
      if q < |t.procs| && j < |t.procs[q].pages| && (q, j) != (p, i) {
        assert u.procs[q].pages[j] == t.procs[q].pages[j];
      }
    }
  }

  /** Metadata may change freely: the references depend on the page lists alone. */
  lemma RefsFrame(procs: seq<Process<PageRef>>, procs': seq<Process<PageRef>>, id: nat)
    requires |procs| == |procs'|
    requires forall p :: 0 <= p < |procs| ==> procs[p].pages == procs'[p].pages
    ensures Refs(procs, id) == Refs(procs', id)
  {
  }

  lemma SoleRef(t: Table, p: nat, i: nat)
    requires Shaped(t) && p < MAX_PROCESSES && i < MAX_USER_PAGES
    requires t.procs[p].pages[i].mapped
    requires |Refs(t.procs, t.procs[p].pages[i].id)| <= 1
    ensures Refs(t.procs, t.procs[p].pages[i].id) == {(p, i)}
  {
    var s := Refs(t.procs, t.procs[p].pages[i].id);
    assert (p, i) in s;
    assert |s - {(p, i)}| == |s| - 1;
  }

  /** The search by id finds the only page with that id. */
  lemma FindPageUnique(t: Table, k: nat)
    requires IdsOk(t) && k < |t.pages| && t.pages[k].used
    ensures FindPage(t.pages, t.pages[k].id) == Some(k)
  {
  }

  lemma IssuedNext(next: nat)
    requires 0 < next < UINT32_RANGE
    ensures Next32(next) < UINT32_RANGE && Issued(Next32(next)) == Issued(next) + 1
  {
  }

  lemma FindUnique<P>(procs: seq<Process<P>>, p: nat)
    requires p < |procs| && procs[p].used && procs[p].pid != 0
    requires forall q, r :: 0 <= q < r < |procs| && procs[q].used && procs[r].used ==> procs[q].pid != procs[r].pid
    ensures Find(procs, procs[p].pid) == Some(p)
  {
  }

  lemma FindPageFrame(pages: seq<CowPage>, pages': seq<CowPage>, id: nat)
    requires |pages| == |pages'|
    requires forall k :: 0 <= k < |pages| ==> pages[k].used == pages'[k].used && pages[k].id == pages'[k].id
    ensures FindPage(pages, id) == FindPage(pages', id)
  {
    FindPageFromFrame(pages, pages', id, 0);
  }

  lemma {:induction false} FindPageFromFrame(pages: seq<CowPage>, pages': seq<CowPage>, id: nat, i: nat)
    requires |pages| == |pages'| && i <= |pages|
    requires forall k :: 0 <= k < |pages| ==> pages[k].used == pages'[k].used && pages[k].id == pages'[k].id
    ensures FindPageFrom(pages, id, i) == FindPageFrom(pages', id, i)
    decreases |pages| - i
  {
    if i < |pages| {
      FindPageFromFrame(pages, pages', id, i + 1);
    }
  }

  /** Whatever keeps pids, references and pages keeps the accounting. */
  lemma AccountedFrame(t: Table, u: Table)
    requires Accounted(t)
    requires u.pages == t.pages && u.nextPid == t.nextPid && u.nextPageId == t.nextPageId
    requires |u.procs| == |t.procs|
    requires forall p :: 0 <= p < |t.procs| ==>
      u.procs[p].used == t.procs[p].used && u.procs[p].pid == t.procs[p].pid && u.procs[p].pages == t.procs[p].pages
    ensures Accounted(u) && SameExcess(t, u)
  {
    forall p, i | 0 <= p < |u.procs| && 0 <= i < |u.procs[p].pages| ensures RefOk(u, p, i) {
      assert RefOk(t, p, i);
      RefsFrame(t.procs, u.procs, u.procs[p].pages[i].id);
    }
    forall k | 0 <= k < |u.pages| ensures CountOk(u, k) && Excess(u, k) == Excess(t, k) {
      assert CountOk(t, k);
      RefsFrame(t.procs, u.procs, u.pages[k].id);
    }
  }

  // ----- fork's sharing step

  lemma ShareRefs(t: Table, parent: nat, child: nat, i: nat, id: nat)
    requires Shaped(t) && parent < MAX_PROCESSES && child < MAX_PROCESSES && parent != child && i < MAX_USER_PAGES
    requires t.procs[parent].pages[i].mapped && !t.procs[child].pages[i].mapped
    requires FindPage(t.pages, t.procs[parent].pages[i].id).Some?
    ensures Refs(Share(t, parent, child, i).value.procs, id) ==
            Refs(t.procs, id) + (if id == t.procs[parent].pages[i].id then {(child, i)} else {})
  {
    var ref := t.procs[parent].pages[i];
    var k := FindPage(t.pages, ref.id).value;
    var shared := ref.(writable := false, cow := true);
    var t1 := SetPage(t, k, t.pages[k].(refcount := t.pages[k].refcount + 1));
    var t2 := SetRef(t1, parent, i, shared);
    assert ref.id == id <==> (parent, i) in Refs(t.procs, id);
    assert (child, i) !in Refs(t.procs, id);
    hide Refs;
    RefsAfterSet(t1, parent, i, shared, id);
    RefsAfterSet(t2, child, i, shared, id);
  }

  lemma SharePages(t: Table, parent: nat, child: nat, i: nat, k: nat)
    requires Shaped(t) && parent < MAX_PROCESSES && child < MAX_PROCESSES && i < MAX_USER_PAGES
    requires t.procs[parent].pages[i].mapped && FindPage(t.pages, t.procs[parent].pages[i].id) == Some(k)
    ensures Share(t, parent, child, i).Some?
    ensures Share(t, parent, child, i).value.pages == t.pages[k := t.pages[k].(refcount := t.pages[k].refcount + 1)]
  {
  }

  lemma ShareCounts(t: Table, parent: nat, child: nat, i: nat, l: nat)
    requires Inv(t) && parent < MAX_PROCESSES && child < MAX_PROCESSES && parent != child && i < MAX_USER_PAGES
    requires t.procs[parent].pages[i].mapped && !t.procs[child].pages[i].mapped && l < MAX_COW_PAGES
    requires FindPage(t.pages, t.procs[parent].pages[i].id).Some?
    ensures CountOk(Share(t, parent, child, i).value, l)
    ensures Excess(Share(t, parent, child, i).value, l) == Excess(t, l)
  {
    var id := t.procs[parent].pages[i].id;
    var k := FindPage(t.pages, id).value;
    assert CountOk(t, l);
    SharePages(t, parent, child, i, k);
    ShareRefs(t, parent, child, i, t.pages[l].id);
    hide Share, FindPage;
    if l == k {
      assert (child, i) !in Refs(t.procs, id);
    } else if t.pages[l].used {
      assert t.pages[l].id != id;
    }
  }

  lemma ShareRefsOk(t: Table, parent: nat, child: nat, i: nat)
    requires Inv(t) && parent < MAX_PROCESSES && child < MAX_PROCESSES && parent != child && i < MAX_USER_PAGES
    requires t.procs[parent].pages[i].mapped && !t.procs[child].pages[i].mapped
    requires FindPage(t.pages, t.procs[parent].pages[i].id).Some?
    ensures RefsOk(Share(t, parent, child, i).value)
  {
    var ref := t.procs[parent].pages[i];
    var u := Share(t, parent, child, i).value;
    forall q, j | 0 <= q < |u.procs| && 0 <= j < |u.procs[q].pages| ensures RefOk(u, q, j) {
      FindPageFrame(t.pages, u.pages, u.procs[q].pages[j].id);
      assert RefOk(t, q, j);
      if (q, j) != (parent, i) && (q, j) != (child, i) {
        assert u.procs[q].pages[j] == t.procs[q].pages[j];
        ShareRefs(t, parent, child, i, u.procs[q].pages[j].id);
        assert (parent, i) in Refs(t.procs, ref.id);
        SharePages(t, parent, child, i, FindPage(t.pages, ref.id).value);
      }
    }
  }

  /** Pids, ids and statistics through a sharing. */
  lemma ShareBooks(t: Table, parent: nat, child: nat, i: nat)
    requires Inv(t) && parent < MAX_PROCESSES && child < MAX_PROCESSES && parent != child && i < MAX_USER_PAGES
    requires t.procs[parent].used && t.procs[child].used && t.procs[parent].pages[i].mapped
    requires FindPage(t.pages, t.procs[parent].pages[i].id).Some?
    ensures var u := Share(t, parent, child, i).value;
      PidsOk(u) && IdsOk(u) && StatsOk(u) && |u.pages| == |t.pages|
  {
    hide RefsOk, CountsOk;
    var u := Share(t, parent, child, i).value;
    assert UsedPages(u.pages) == UsedPages(t.pages);
  }

  lemma ShareKeepsInv(t: Table, parent: nat, child: nat, i: nat)
    requires Inv(t) && parent < MAX_PROCESSES && child < MAX_PROCESSES && parent != child && i < MAX_USER_PAGES
    requires t.procs[parent].used && t.procs[child].used && !t.procs[child].pages[i].mapped
    ensures Share(t, parent, child, i).Some? && Inv(Share(t, parent, child, i).value)
    ensures SameExcess(t, Share(t, parent, child, i).value)
  {
    assert RefOk(t, parent, i);
    if t.procs[parent].pages[i].mapped {
      ShareRefsOk(t, parent, child, i);
      ShareBooks(t, parent, child, i);
      var u := Share(t, parent, child, i).value;
      hide Share, PidsOk, IdsOk, RefsOk, StatsOk, Excess;
      forall l | 0 <= l < |u.pages| ensures CountOk(u, l) && Excess(u, l) == Excess(t, l) {
        ShareCounts(t, parent, child, i, l);
      }
    }
  }

  // ----- dropping one reference

  lemma DropRefRefs(t: Table, p: nat, i: nat, id: nat)
    requires Shaped(t) && p < MAX_PROCESSES && i < MAX_USER_PAGES
    requires t.procs[p].pages[i].mapped
    ensures Refs(DropRef(t, p, i).procs, id) == Refs(t.procs, id) - {(p, i)}
  {
    RefsAfterSet(ReleaseRef(t, t.procs[p].pages[i].id), p, i, NO_REF, id);
  }

  lemma DropRefPages(t: Table, p: nat, i: nat, k: nat)
    requires Shaped(t) && p < MAX_PROCESSES && i < MAX_USER_PAGES
    requires t.procs[p].pages[i].mapped && FindPage(t.pages, t.procs[p].pages[i].id) == Some(k)
    requires t.pages[k].refcount > 0
    ensures var n := t.pages[k].refcount;
      DropRef(t, p, i).pages ==
      t.pages[k := if n == 1 then NoPage() else t.pages[k].(refcount := n - 1)]
  {
  }

  lemma DropRefCounts(t: Table, p: nat, i: nat, l: nat)
    requires Inv(t) && p < MAX_PROCESSES && i < MAX_USER_PAGES && l < MAX_COW_PAGES
    requires t.procs[p].pages[i].mapped
    ensures CountOk(DropRef(t, p, i), l)
    ensures Excess(DropRef(t, p, i), l) == Excess(t, l)
  {
    var id := t.procs[p].pages[i].id;
    assert RefOk(t, p, i);
    var k := FindPage(t.pages, id).value;
    assert CountOk(t, k) && CountOk(t, l);
    DropRefPages(t, p, i, k);
    var u := DropRef(t, p, i);
    var before := Refs(t.procs, t.pages[l].id);
    DropRefRefs(t, p, i, t.pages[l].id);
    if l == k {
      assert (p, i) in before;
      assert |before - {(p, i)}| == |before| - 1;
      assert Excess(t, l) >= 0;
    } else if t.pages[l].used {
      assert t.pages[l].id != id;
      assert before - {(p, i)} == before;
    }
  }

  lemma DropRefRefsOk(t: Table, p: nat, i: nat)
    requires Inv(t) && p < MAX_PROCESSES && i < MAX_USER_PAGES
    requires t.procs[p].pages[i].mapped
    ensures RefsOk(DropRef(t, p, i))
  {
    var id := t.procs[p].pages[i].id;
    var u := DropRef(t, p, i);
    assert RefOk(t, p, i);
    var k := FindPage(t.pages, id).value;
    assert CountOk(t, k);
    forall q, j | 0 <= q < |u.procs| && 0 <= j < |u.procs[q].pages| ensures RefOk(u, q, j) {
      assert RefOk(t, q, j);
      if (q, j) != (p, i) && t.procs[q].pages[j].mapped {
        var other := t.procs[q].pages[j];
        assert u.procs[q].pages[j] == other;
        DropRefRefs(t, p, i, other.id);
        var l := FindPage(t.pages, other.id).value;
        assert l == k ==> (q, j) in Refs(t.procs, id);
        if t.pages[k].refcount == 1 {
          SoleRef(t, p, i);
        }
        assert u.pages[l].used && u.pages[l].id == other.id;
      }
    }
  }

  /** Pids, ids and statistics through a dropped reference. */
  lemma DropRefBooks(t: Table, p: nat, i: nat)
    requires Inv(t) && p < MAX_PROCESSES && i < MAX_USER_PAGES && t.procs[p].pages[i].mapped
    ensures var u := DropRef(t, p, i); PidsOk(u) && IdsOk(u) && StatsOk(u) && |u.pages| == |t.pages|
  {
    assert RefOk(t, p, i);
    var k := FindPage(t.pages, t.procs[p].pages[i].id).value;
    assert CountOk(t, k);
    DropRefPages(t, p, i, k);
    hide RefsOk, CountsOk;
    var u := DropRef(t, p, i);
    assert k in UsedPages(t.pages);
    if t.pages[k].refcount == 1 {
      assert UsedPages(u.pages) == UsedPages(t.pages) - {k};
    } else {
      assert UsedPages(u.pages) == UsedPages(t.pages);
    }
  }

  lemma DropRefKeepsInv(t: Table, p: nat, i: nat)
    requires Inv(t) && p < MAX_PROCESSES && i < MAX_USER_PAGES
    ensures Inv(DropRef(t, p, i)) && SameExcess(t, DropRef(t, p, i))
  {
    if t.procs[p].pages[i].mapped {
      hide PidsOk, IdsOk, RefsOk, StatsOk, Excess;
      DropRefBooks(t, p, i);
      DropRefRefsOk(t, p, i);
      var u := DropRef(t, p, i);
      hide DropRef;
      forall l | 0 <= l < |u.pages| ensures CountOk(u, l) && Excess(u, l) == Excess(t, l) {
        DropRefCounts(t, p, i, l);
      }
    }
  }

  // ----- mapping a fresh page

  /** A page slot that was free holds nobody's page: no reference carries a fresh id. */
  lemma FreshIdUnreferenced(t: Table)
    requires Shaped(t) && IdsOk(t) && RefsOk(t) && t.nextPageId != 0
    ensures Refs(t.procs, t.nextPageId) == {}
  {
    forall p, i | 0 <= p < |t.procs| && 0 <= i < |t.procs[p].pages| && t.procs[p].pages[i].mapped
      ensures t.procs[p].pages[i].id != t.nextPageId
    {
      assert RefOk(t, p, i);
    }
  }

  /** A fresh page with this content, referenced and writable from (p, i) alone. */
  ghost function Attach(t: Table, p: nat, i: nat, k: nat, data: seq<Byte>): (r: Table)
    requires Shaped(t) && p < MAX_PROCESSES && i < MAX_USER_PAGES && k < MAX_COW_PAGES
    requires |data| == PAGE_SIZE
  {
    SetRef(SetPage(t, k, CowPage(true, t.nextPageId, 1, data)), p, i, PageRef(true, t.nextPageId, true, false))
      .(nextPageId := Next32(t.nextPageId), stats := RaisePeak(t.stats, 1))
  }

  lemma AttachRefs(t: Table, p: nat, i: nat, k: nat, data: seq<Byte>, id: nat)
    requires Shaped(t) && p < MAX_PROCESSES && i < MAX_USER_PAGES && k < MAX_COW_PAGES && |data| == PAGE_SIZE
    requires !t.procs[p].pages[i].mapped
    ensures Refs(Attach(t, p, i, k, data).procs, id) ==
            Refs(t.procs, id) + (if id == t.nextPageId then {(p, i)} else {})
  {
    var t1 := SetPage(t, k, CowPage(true, t.nextPageId, 1, data));
    RefsAfterSet(t1, p, i, PageRef(true, t.nextPageId, true, false), id);
    assert (p, i) !in Refs(t.procs, id);
  }

  lemma AttachCounts(t: Table, p: nat, i: nat, k: nat, data: seq<Byte>, l: nat)
    requires Inv(t) && p < MAX_PROCESSES && i < MAX_USER_PAGES && k < MAX_COW_PAGES && |data| == PAGE_SIZE
    requires !t.procs[p].pages[i].mapped && !t.pages[k].used && t.nextPageId != 0 && l < MAX_COW_PAGES
    ensures CountOk(Attach(t, p, i, k, data), l)
    ensures Excess(Attach(t, p, i, k, data), l) == Excess(t, l)
  {
    FreshIdUnreferenced(t);
    assert CountOk(t, l);
    var u := Attach(t, p, i, k, data);
    AttachRefs(t, p, i, k, data, u.pages[l].id);
    if l != k && u.pages[l].used {
      assert u.pages[l].id != t.nextPageId;
    }
  }

  lemma AttachRefsOk(t: Table, p: nat, i: nat, k: nat, data: seq<Byte>, q: nat, j: nat)
    requires Inv(t) && p < MAX_PROCESSES && i < MAX_USER_PAGES && k < MAX_COW_PAGES && |data| == PAGE_SIZE
    requires !t.procs[p].pages[i].mapped && !t.pages[k].used && t.nextPageId != 0
    requires q < MAX_PROCESSES && j < MAX_USER_PAGES
    ensures RefOk(Attach(t, p, i, k, data), q, j)
  {
    FreshIdUnreferenced(t);
    assert RefOk(t, q, j);
    var u := Attach(t, p, i, k, data);
    var ref := u.procs[q].pages[j];
    AttachRefs(t, p, i, k, data, ref.id);
    if (q, j) == (p, i) {
      assert u.pages[k].used && u.pages[k].id == ref.id;
    } else if ref.mapped {
      assert ref == t.procs[q].pages[j];
      assert (q, j) in Refs(t.procs, ref.id);
      var l := FindPage(t.pages, ref.id).value;
      assert u.pages[l].used && u.pages[l].id == ref.id;
    }
  }

  /** Pids, ids and page totals through an attachment. */
  lemma AttachBooks(t: Table, p: nat, i: nat, k: nat, data: seq<Byte>)
    requires Inv(t) && p < MAX_PROCESSES && i < MAX_USER_PAGES && k < MAX_COW_PAGES && |data| == PAGE_SIZE
    requires t.procs[p].used && !t.pages[k].used && t.nextPageId != 0
    ensures var u := Attach(t, p, i, k, data);
      && Shaped(u) && PidsOk(u) && IdsOk(u)
      && |UsedPages(u.pages)| == |UsedPages(t.pages)| + 1
      && (forall l :: 0 <= l < |u.pages| && u.pages[l].used ==> u.pages[l].refcount <= u.stats.peak)
  {
    hide RefsOk, CountsOk;
    IssuedNext(t.nextPageId);
    assert UsedPages(Attach(t, p, i, k, data).pages) == UsedPages(t.pages) + {k};
  }

  /** Attaching keeps everything except the page totals, which the caller's counter settles. */
  lemma AttachKeeps(t: Table, p: nat, i: nat, k: nat, data: seq<Byte>)
    requires Inv(t) && p < MAX_PROCESSES && i < MAX_USER_PAGES && k < MAX_COW_PAGES && |data| == PAGE_SIZE
    requires t.procs[p].used && !t.procs[p].pages[i].mapped && !t.pages[k].used && t.nextPageId != 0
    ensures var u := Attach(t, p, i, k, data);
      && Accounted(u) && SameExcess(t, u)
      && |UsedPages(u.pages)| == |UsedPages(t.pages)| + 1
      && (forall l :: 0 <= l < |u.pages| && u.pages[l].used ==> u.pages[l].refcount <= u.stats.peak)
  {
    AttachBooks(t, p, i, k, data);
    var u := Attach(t, p, i, k, data);
    hide Attach, PidsOk, IdsOk, CountOk, RefOk, Excess;
    forall l | 0 <= l < |u.pages| ensures CountOk(u, l) && Excess(u, l) == Excess(t, l) {
      AttachCounts(t, p, i, k, data, l);
    }
    forall q, j | 0 <= q < |u.procs| && 0 <= j < |u.procs[q].pages| ensures RefOk(u, q, j) {
      AttachRefsOk(t, p, i, k, data, q, j);
    }
  }

  lemma MapIsAttach(t: Table, pid: nat, i: nat, fill: Byte)
    requires Shaped(t) && Map(t, pid, i, fill).1
    ensures var p := Find(t.procs, pid).value;
      var k := FreePageFrom(t.pages, 0).value;
      var u := Attach(t, p, i, k, Filled(fill));
      && i < MAX_USER_PAGES && t.nextPageId != 0
      && Map(t, pid, i, fill).0 == u.(stats := u.stats.(mapped := u.stats.mapped + 1))
  {
  }

  lemma MapKeepsInv(t: Table, pid: nat, i: nat, fill: Byte)
    requires Inv(t)
    ensures Inv(Map(t, pid, i, fill).0) && SameExcess(t, Map(t, pid, i, fill).0)
  {
    if Map(t, pid, i, fill).1 {
      MapIsAttach(t, pid, i, fill);
      var p, k := Find(t.procs, pid).value, FreePageFrom(t.pages, 0).value;
      AttachKeeps(t, p, i, k, Filled(fill));
      AccountedFrame(Attach(t, p, i, k, Filled(fill)), Map(t, pid, i, fill).0);
    }
  }

  // ----- copy on write

  /** The private copy of a shared page is: give up the shared reference, attach a fresh page
      with the same bytes. */
  lemma CopyIsDropThenAttach(t: Table, p: nat, i: nat, k: nat, n: nat)
    requires Inv(t) && p < MAX_PROCESSES && i < MAX_USER_PAGES && t.procs[p].pages[i].mapped
    requires FindPage(t.pages, t.procs[p].pages[i].id) == Some(k) && FreePageFrom(t.pages, 0) == Some(n)
    requires !t.procs[p].pages[i].writable && t.pages[k].refcount > 1 && t.nextPageId != 0
    ensures var d := DropRef(t, p, i);
      var u := Attach(d, p, i, n, t.pages[k].data);
      && d.nextPageId == t.nextPageId && !d.pages[n].used && d.procs[p].used == t.procs[p].used
      && !d.procs[p].pages[i].mapped && d.stats == t.stats && UsedPages(d.pages) == UsedPages(t.pages)
      && Duplicate(t, p, i) ==
         (u.(stats := u.stats.(faults := u.stats.faults + 1, copied := u.stats.copied + 1)), true)
  {
    assert RefOk(t, p, i);
    DropRefPages(t, p, i, k);
    var d := DropRef(t, p, i);
    var owned := PageRef(true, t.nextPageId, true, false);
    assert SetRef(d, p, i, owned).procs == SetRef(t, p, i, owned).procs by {
      assert SetRef(d, p, i, owned).procs[p].pages == SetRef(t, p, i, owned).procs[p].pages;
    }
    var u := Attach(d, p, i, n, t.pages[k].data);
    assert u.pages == Duplicate(t, p, i).0.pages;
  }

  lemma CopyKeepsInv(t: Table, p: nat, i: nat, k: nat, n: nat)
    requires Inv(t) && p < MAX_PROCESSES && i < MAX_USER_PAGES && t.procs[p].used && t.procs[p].pages[i].mapped
    requires FindPage(t.pages, t.procs[p].pages[i].id) == Some(k) && FreePageFrom(t.pages, 0) == Some(n)
    requires !t.procs[p].pages[i].writable && t.pages[k].refcount > 1 && t.nextPageId != 0
    ensures Inv(Duplicate(t, p, i).0) && SameExcess(t, Duplicate(t, p, i).0)
  {
    hide Duplicate, DropRef, PidsOk, IdsOk, RefsOk, CountsOk, Excess;
    CopyIsDropThenAttach(t, p, i, k, n);
    DropRefKeepsInv(t, p, i);
    var d := DropRef(t, p, i);
    AttachKeeps(d, p, i, n, t.pages[k].data);
    AccountedFrame(Attach(d, p, i, n, t.pages[k].data), Duplicate(t, p, i).0);
  }

  lemma DuplicateKeepsInv(t: Table, p: nat, i: nat)
    requires Inv(t) && p < MAX_PROCESSES && i < MAX_USER_PAGES && t.procs[p].pages[i].mapped
    ensures Inv(Duplicate(t, p, i).0) && SameExcess(t, Duplicate(t, p, i).0)
  {
    assert RefOk(t, p, i);
    var ref := t.procs[p].pages[i];
    var k := FindPage(t.pages, ref.id).value;
    assert CountOk(t, k);
    if !ref.writable {
      if t.pages[k].refcount == 1 {
        SoleRef(t, p, i);
        RewriteFlags(t, p, i);
      } else if t.nextPageId != 0 && FreePageFrom(t.pages, 0).Some? {
        CopyKeepsInv(t, p, i, k, FreePageFrom(t.pages, 0).value);
      }
    }
  }

  lemma RewriteRefs(t: Table, p: nat, i: nat, id: nat)
    requires Shaped(t) && p < MAX_PROCESSES && i < MAX_USER_PAGES && t.procs[p].pages[i].mapped
    ensures Refs(SetRef(t, p, i, t.procs[p].pages[i].(cow := false, writable := true)).procs, id) == Refs(t.procs, id)
  {
    var ref := t.procs[p].pages[i].(cow := false, writable := true);
    RefsAfterSet(t, p, i, ref, id);
    assert (p, i) in Refs(t.procs, id) <==> id == ref.id;
  }

  lemma RewriteFlags(t: Table, p: nat, i: nat)
    requires Accounted(t) && p < MAX_PROCESSES && i < MAX_USER_PAGES && t.procs[p].pages[i].mapped
    requires Refs(t.procs, t.procs[p].pages[i].id) == {(p, i)}
    requires var k := FindPage(t.pages, t.procs[p].pages[i].id); k.Some? && t.pages[k.value].refcount == 1
    ensures var u := SetRef(t, p, i, t.procs[p].pages[i].(cow := false, writable := true));
      Accounted(u) && SameExcess(t, u)
  {
    hide Refs;
    var ref := t.procs[p].pages[i].(cow := false, writable := true);
    var u := SetRef(t, p, i, ref);
    forall id ensures Refs(u.procs, id) == Refs(t.procs, id) {
      RewriteRefs(t, p, i, id);
    }
    forall q, j | 0 <= q < |u.procs| && 0 <= j < |u.procs[q].pages| ensures RefOk(u, q, j) {
      assert RefOk(t, q, j);
    }
    forall l | 0 <= l < |u.pages| ensures CountOk(u, l) {
      assert CountOk(t, l);
    }
  }
}
