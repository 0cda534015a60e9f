/**
 * The breakpoint code in the form the debugger runs it: records in a pool, free records linked through
 * it, and the list an array of references that is shifted in place. Every method is tied to the
 * operation of module Breakpoints on the value that the arrays stand for.
 */
module BreakpointPool {
  import B = Breakpoints

  /** The null link. */
  const NIL := B.POOL_SIZE

  predicate Refs(pool: seq<B.Rec>, refs: seq<nat>) {
    && (forall k :: 0 <= k < |pool| ==> pool[k].id == k)
    && (forall i :: 0 <= i < |refs| ==> refs[i] < |pool|)
    && (forall i, j :: 0 <= i < j < |refs| ==> refs[i] != refs[j])
  }

  /** What an array of references stands for. */
  function Deref(pool: seq<B.Rec>, refs: seq<nat>): (r: seq<B.Rec>)
    requires Refs(pool, refs)
    ensures |r| == |refs| && forall i :: 0 <= i < |refs| ==> r[i] == pool[refs[i]]
  {
    seq(|refs|, i requires 0 <= i < |refs| => pool[refs[i]])
  }

  /** `links` are the free records in the order of the links from `head`. */
  predicate Chain(next: seq<nat>, head: nat, links: seq<nat>)
    decreases |links|
  {
    if links == [] then head == NIL
    else head == links[0] && head < |next| && Chain(next, next[head], links[1..])
  }

  predicate Distinct(links: seq<nat>) {
    forall i, j :: 0 <= i < j < |links| ==> links[i] != links[j]
  }

  predicate Apart(refs: seq<nat>, links: seq<nat>) {
    forall i, j :: 0 <= i < |refs| && 0 <= j < |links| ==> refs[i] != links[j]
  }

  lemma DerefUpdate(pool: seq<B.Rec>, refs: seq<nat>, i: nat, r: B.Rec)
    requires Refs(pool, refs) && i < |refs| && r.id == refs[i]
    ensures Refs(pool[refs[i] := r], refs)
    ensures Deref(pool[refs[i] := r], refs) == Deref(pool, refs)[i := r]
  {
  }

  lemma OnlyPlace(pool: seq<B.Rec>, refs: seq<nat>, i: nat)
    requires Refs(pool, refs) && i < |refs|
    ensures forall j :: 0 <= j < |refs| && refs[j] == refs[i] ==> j == i
  {
  }

  lemma MovedRefs(pool: seq<B.Rec>, was: seq<nat>, refs: seq<nat>, links: seq<nat>, i: nat)
    requires Refs(pool, was) && Apart(was, links) && |refs| == |was| && i < |was|
    requires forall j :: 0 <= j < |was| ==> B.Before(i, j) < |was| && refs[j] == was[B.Before(i, j)]
    ensures Refs(pool, refs) && Apart(refs, links)
    ensures Deref(pool, refs) == B.ToFront(Deref(pool, was), i)
  {
    B.ToFrontAt(Deref(pool, was), i);
  }

  lemma RemovedRefs(pool: seq<B.Rec>, was: seq<nat>, refs: seq<nat>, links: seq<nat>, i: nat)
    requires Refs(pool, was) && Apart(was, links) && i < |was| == |refs| + 1
    requires forall j :: 0 <= j < |refs| ==> refs[j] == was[if j < i then j else j + 1]
    ensures Refs(pool, refs) && Apart(refs, [was[i]] + links)
    ensures Deref(pool, refs) == B.Without(Deref(pool, was), i)
  {
  }

  lemma {:induction false} ChainElsewhere(next: seq<nat>, head: nat, links: seq<nat>, bp: nat, to: nat)
    requires Chain(next, head, links) && bp < |next| && bp !in links
    ensures Chain(next[bp := to], head, links)
    decreases |links|
  {
    if links != [] { ChainElsewhere(next, next[head], links[1..], bp, to); }
  }

  /** A released record goes to the head of the free list. */
  lemma ChainPush(next: seq<nat>, head: nat, links: seq<nat>, bp: nat)
    requires Chain(next, head, links) && Distinct(links) && bp < |next| && bp !in links
    ensures Chain(next[bp := head], bp, [bp] + links) && Distinct([bp] + links)
  {
    ChainElsewhere(next, head, links, bp, head);
    assert ([bp] + links)[1..] == links;
  }

  /** A record of the free list is rewritten and appended to the list. */
  lemma AddedRef(pool: seq<B.Rec>, refs: seq<nat>, links: seq<nat>, r: B.Rec)
    requires Refs(pool, refs) && Apart(refs, links) && links != [] && r.id == links[0] < |pool|
    requires Distinct(links)
    ensures Refs(pool[r.id := r], refs + [r.id]) && Apart(refs + [r.id], links[1..])
    ensures Deref(pool[r.id := r], refs + [r.id]) == Deref(pool, refs) + [r]
  {
  }

  lemma OnlyRec(recs: seq<B.Rec>, i: nat)
    requires i < |recs| && forall j :: 0 <= j < i ==> recs[j].id != recs[i].id
    ensures B.FindRec(recs, recs[i].id) == i
  {
    if i > 0 { OnlyRec(recs[1..], i - 1); }
  }

  class BreakpointControl {
    const pool: array<B.Rec>
    const next: array<nat>
    const lst: array<nat>
    const hw: array<B.Slot>
    const pick: B.Pick
    var cnt: nat
    var free: nat
    ghost var links: seq<nat>

    ghost predicate Valid()
      reads this, pool, next, lst, hw
    {
      && pool.Length == next.Length == lst.Length == B.POOL_SIZE && hw.Length >= 1 && next != lst
      && cnt + |links| == B.POOL_SIZE
      && Refs(pool[..], lst[..cnt])
      && Chain(next[..], free, links) && Distinct(links)
      && Apart(lst[..cnt], links)
      && B.GoodPick(pick)
    }

    ghost function View(): (s: B.State)
      requires Valid()
      reads this, pool, next, lst, hw
      ensures |s.lst| == cnt && |s.hw| == hw.Length
    {
      B.State(Deref(pool[..], lst[..cnt]), links, hw[..])
    }

    lemma Shape()
      requires Valid()
      ensures cnt <= lst.Length == pool.Length && |View().hw| == hw.Length >= 1
      ensures free == NIL <==> View().free == []
      ensures forall i :: 0 <= i < cnt ==> lst[i] < pool.Length
    {
    }

    lemma RecordAt(i: nat)
      requires Valid() && i < cnt
      ensures View().lst[i] == pool[lst[i]] && pool[lst[i]].id == lst[i]
    {
    }

    // ---------------------------------------------------------------- the target driver

    method IceSet(addr: nat, size: nat) returns (ok: bool, id: int)
      requires Valid()
      modifies hw
      ensures Valid() && ok == B.HasVacancy(old(hw[..])) && id == pick(old(hw[..]))
      ensures hw[..] == if ok then old(hw[..])[id := B.Busy(addr, size)] else old(hw[..])
    {
      ok := exists k :: 0 <= k < hw.Length && hw[k] == B.Vacant;
      assert ok == B.HasVacancy(hw[..]) by {
        if ok {
          var k :| 0 <= k < hw.Length && hw[k] == B.Vacant;
          assert hw[..][k] == B.Vacant;
        }
      }
      id := pick(hw[..]);
      if ok { hw[id] := B.Busy(addr, size); }
    }

    method IceClr(id: int)
      requires Valid()
      modifies hw
      ensures Valid() && View() == old(View()).(hw := B.Released(old(View().hw), id))
    {
      if 0 <= id < hw.Length { hw[id] := B.Vacant; }
    }

    // ---------------------------------------------------------------- the list

    method Lookup(addr: nat, size: nat) returns (bp: nat)
      requires Valid()
      ensures var i := B.Find(View().lst, addr, size);
        if i < cnt then bp == lst[i] && bp != NIL else bp == NIL
    {
      ghost var recs := View().lst;
      var pos := 0;
      while pos < cnt
        invariant 0 <= pos <= cnt
        invariant forall j :: 0 <= j < pos ==> !B.Same(recs[j], addr, size)
      {
        var r := pool[lst[pos]];
        if r.addr == addr && r.size == size {
          assert recs[pos] == r;
          assert B.Find(recs, addr, size) == pos;
          return lst[pos];
        }
        pos := pos + 1;
      }
      bp := NIL;
    }

    /** `dbg_bp_move_to_head`: the entries before bp go back one place. */
    method ShiftTo(bp: nat, ghost i: nat)
      requires i < cnt <= lst.Length && lst[i] == bp
      requires forall j :: 0 <= j < cnt && lst[j] == bp ==> j == i
      modifies lst
      ensures forall j :: 0 <= j < lst.Length ==> lst[j] == old(lst[if j < cnt then B.Before(i, j) else j])
    {
      var prev := bp;
      var k := 0;
      while k < cnt
        invariant 0 <= k <= i
        invariant prev == if k == 0 then bp else old(lst[k - 1])
        invariant forall j :: 0 <= j < k ==> lst[j] == if j == 0 then bp else old(lst[j - 1])
        invariant forall j :: k <= j < lst.Length ==> lst[j] == old(lst[j])
        decreases cnt - k
      {
        var tmp := lst[k];
        lst[k] := prev;
        if tmp == bp { break; }
        prev := tmp;
        k := k + 1;
      }
    }

    method MoveToHead(bp: nat, ghost i: nat)
      requires Valid() && i < cnt && lst[i] == bp
      modifies lst
      ensures Valid()
      ensures View() == old(View()).(lst := B.ToFront(old(View().lst), i))
      ensures lst[0] == bp
    {
      hide Deref, Refs, Chain, Apart;
      OnlyPlace(pool[..], lst[..cnt], i);
      ghost var was := lst[..cnt];
      ShiftTo(bp, i);
      MovedRefs(pool[..], was, lst[..cnt], links, i);
    }

    // ---------------------------------------------------------------- one record

    /** Writes the record at position i of the list. */
    method Store(ghost i: nat, r: B.Rec)
      requires Valid() && i < cnt && lst[i] == r.id
      modifies pool
      ensures Valid() && View() == old(View()).(lst := old(View().lst)[i := r])
    {
      DerefUpdate(pool[..], lst[..cnt], i, r);
      pool[r.id] := r;
      assert pool[..] == old(pool[..])[lst[i] := r];
    }

    method Deactivate(bp: nat, ghost i: nat)
      requires Valid() && i < cnt && lst[i] == bp
      modifies pool, hw
      ensures Valid() && View() == B.Disarm(old(View()), i)
    {
      var r := pool[bp];
      if r.active {
        Store(i, r.(active := false));
        IceClr(r.hwId);
      }
    }

    /** One turn of either sweep. */
    method Retire(bp: nat, ghost i: nat)
      requires Valid() && i < cnt && lst[i] == bp
      modifies pool, hw
      ensures Valid() && View() == B.Retire(old(View()), i)
    {
      hide Valid, View, B.Released;
      Shape();
      RecordAt(i);
      var r := pool[bp];
      if r.active {
        IceClr(r.hwId);
        Store(i, r.(active := false, hwId := -1));
      }
    }

    method SwitchOff(bp: nat, ghost i: nat)
      requires Valid() && i < cnt && lst[i] == bp
      modifies pool, hw
      ensures Valid() && View() == B.SwitchOff(old(View()), i)
    {
      Retire(bp, i);
      Store(i, pool[bp].(enabled := false));
    }

    /** `ice_bp_set` for a listed record; if the target refuses, nothing changes. */
    method TryArm(bp: nat, ghost i: nat) returns (ok: bool)
      requires Valid() && i < cnt && lst[i] == bp
      modifies pool, hw
      ensures Valid() && ok == old(B.HasVacancy(hw[..]))
      ensures View() == if ok then B.Arm(old(View()), i, pick) else old(View())
    {
      var r := pool[bp];
      var id;
      ok, id := IceSet(r.addr, r.size);
      if ok { Store(i, r.(active := true, hwId := id)); }
    }

    method ArmRecord(bp: nat, ghost i: nat) returns (ret: int)
      requires Valid() && i < cnt && lst[i] == bp
      modifies pool, hw
      ensures Valid() && View() == B.Arm(old(View()), i, pick)
      ensures ret == if old(B.HasVacancy(hw[..])) then 0 else -1
    {
      var ok := TryArm(bp, i);
      ret := 0;
      if !ok {
        Store(i, pool[bp].(active := false, hwId := -1));
        ret := -1;
      }
    }

    method Activate(bp: nat, ghost i: nat) returns (ret: int)
      requires Valid() && i < cnt && lst[i] == bp
      modifies pool, hw
      ensures Valid() && View() == B.Activate(old(View()), i, pick)
      ensures ret == if View().lst[i].active then 0 else -1
    {
      if pool[bp].active { return 0; }
      if cnt > hw.Length {
        Deactivate(lst[hw.Length], hw.Length);
      }
      ret := ArmRecord(bp, i);
    }

    // ---------------------------------------------------------------- the pool

    method New(addr: nat, size: nat) returns (bp: nat)
      requires Valid() && free != NIL
      modifies this, pool, lst
      ensures Valid() && links == old(links[1..]) && cnt == old(cnt) + 1
      ensures View() == B.New(old(View()), addr, size)
      ensures bp == lst[cnt - 1]
    {
      bp := free;
      ghost var r := B.Rec(bp, addr, size, false, false, -1);
      AddedRef(pool[..], lst[..cnt], links, r);
      free := next[bp];
      pool[bp] := B.Rec(bp, addr, size, false, false, -1);
      lst[cnt] := bp;
      cnt := cnt + 1;
      links := links[1..];
      assert lst[..cnt] == old(lst[..cnt]) + [bp];
    }

    /** The search and the shift of `dbg_bp_delete`. */
    method CloseGap(bp: nat, ghost i: nat)
      requires i < cnt <= lst.Length && lst[i] == bp
      requires forall j :: 0 <= j < cnt && lst[j] == bp ==> j == i
      modifies lst
      ensures forall j :: 0 <= j < cnt - 1 ==> lst[j] == old(lst[if j < i then j else j + 1])
    {
      var n := 0;
      while lst[n] != bp
        invariant 0 <= n <= i
        decreases i - n
      {
        n := n + 1;
      }
      for k := n to cnt - 1
        invariant forall j :: 0 <= j < k ==> lst[j] == old(lst[if j < i then j else j + 1])
        invariant forall j :: k <= j < cnt ==> lst[j] == old(lst[j])
      {
        lst[k] := lst[k + 1];
      }
    }

    /** A record leaves the list for the free list. */
    method Release(bp: nat, ghost i: nat)
      requires Valid() && i < cnt && lst[i] == bp
      modifies this, lst, next
      ensures Valid() && cnt == old(cnt) - 1
      ensures View() == B.State(B.Without(old(View().lst), i), [bp] + old(View().free), old(View().hw))
    {
      ghost var was := lst[..cnt];
      OnlyPlace(pool[..], was, i);
      CloseGap(bp, i);
      cnt := cnt - 1;
      RemovedRefs(pool[..], was, lst[..cnt], links, i);
      ChainPush(next[..], free, links, bp);
      next[bp] := free;
      free := bp;
      links := [bp] + links;
    }

    /** The result of `ice_bp_set` is not looked at. */
    method MarkArmed(bp: nat, ghost i: nat)
      requires Valid() && i < cnt && lst[i] == bp
      modifies pool, hw
      ensures Valid() && View() == B.Promote(old(View()), i, pick)
    {
      var r := pool[bp];
      var ok, id := IceSet(r.addr, r.size);
      Store(i, r.(active := true, hwId := id));
    }

    /** The end of `dbg_bp_delete` for a record that was armed. */
    method Promote(id: int)
      requires Valid()
      modifies pool, hw
      ensures Valid()
      ensures var t := old(View()).(hw := B.Released(old(View().hw), id));
        View() == if |t.lst| >= |t.hw| >= 1 && t.lst[|t.hw| - 1].enabled then B.Promote(t, |t.hw| - 1, pick) else t
    {
      hide Valid, View, B.Promote, B.Released;
      IceClr(id);
      Shape();
      if cnt >= hw.Length {
        RecordAt(hw.Length - 1);
        var nxt := lst[hw.Length - 1];
        if pool[nxt].enabled {
          MarkArmed(nxt, hw.Length - 1);
        }
      }
    }

    method Delete(bp: nat, ghost i: nat)
      requires Valid() && i < cnt && lst[i] == bp
      modifies this, pool, lst, next, hw
      ensures Valid() && View() == B.Delete(old(View()), i, pick)
    {
      hide Valid, View, B.Without, B.Promote, B.Released;
      Shape();
      RecordAt(i);
      var r := pool[bp];
      Release(bp, i);
      if r.active { Promote(r.hwId); }
    }

    method Off(bp: nat, ghost i: nat)
      requires Valid() && i < cnt && lst[i] == bp
      modifies pool, hw
      ensures Valid() && View() == B.Disable(old(View()), i)
    {
      Deactivate(bp, i);
      Store(i, pool[bp].(enabled := false));
    }

    /** One turn of `dbg_bp_enable_all`: a record in the window is armed before it is enabled. */
    method On(bp: nat, ghost i: nat, inWindow: bool) returns (ret: int)
      requires Valid() && i < cnt && lst[i] == bp && (inWindow <==> i < hw.Length)
      modifies pool, hw
      ensures Valid() && ret == (if B.EnableStops(old(View()), i) then -1 else 0)
      ensures View() == if ret == 0 then B.EnableStep(old(View()), i, pick) else old(View())
    {
      if inWindow && !pool[bp].active {
        var ok := TryArm(bp, i);
        if !ok { return -1; }
      }
      Store(i, pool[bp].(enabled := true));
      ret := 0;
    }

    /** One turn of `dbg_bp_activate_all`. */
    method Rearm(bp: nat, ghost i: nat) returns (ret: int)
      requires Valid() && i < cnt && lst[i] == bp && i < hw.Length
      modifies pool, hw
      ensures Valid() && ret == (if B.RunStops(old(View()), i) then -1 else 0)
      ensures View() == if ret == 0 then B.RunStep(old(View()), i, pick) else old(View())
    {
      ret := 0;
      var r := pool[bp];
      if r.enabled && !r.active {
        var ok := TryArm(bp, i);
        if !ok { ret := -1; }
      }
    }

    // ---------------------------------------------------------------- the calls of the debugger

    /** `target_breakpoint_set` from the move to the head on. */
    method SetListed(bp: nat, ghost i: nat)
      requires Valid() && i < cnt && lst[i] == bp
      modifies pool, lst, hw
      ensures Valid()
      ensures var s := old(View());
        View() == B.Activate(B.Enabled(s.(lst := B.ToFront(s.lst, i)), 0, true), 0, pick)
    {
      hide Valid, View, B.Activate, B.ToFront;
      Shape();
      MoveToHead(bp, i);
      Shape();
      RecordAt(0);
      Store(0, pool[bp].(enabled := true));
      RecordAt(0);
      if !pool[bp].active {
        var _ := Activate(bp, 0);
      } else {
        B.ActivateActive(View(), 0, pick);
      }
    }

    /** `target_breakpoint_set`. The result of the activation is dropped, as in the original. */
    method SetBreakpoint(addr: nat, size: nat) returns (ret: int)
      requires Valid() && (B.Find(View().lst, addr, size) < cnt || free != NIL)
      modifies this, pool, lst, hw
      ensures Valid() && View() == B.Set(old(View()), addr, size, pick) && ret == 0
    {
      hide Valid, View, B.Activate, B.ToFront, B.Find, B.Enabled;
      Shape();
      ghost var i := B.Find(View().lst, addr, size);
      var bp := Lookup(addr, size);
      if bp == NIL { bp := New(addr, size); }
      SetListed(bp, i);
      ret := 0;
    }

    method Clear(addr: nat, size: nat) returns (ret: int)
      requires Valid()
      modifies this, pool, lst, next, hw
      ensures Valid()
      ensures var i := B.Find(old(View().lst), addr, size);
        if i < old(cnt) then View() == B.Delete(old(View()), i, pick) && ret == 0
        else View() == old(View()) && ret == -1
    {
      ghost var i := B.Find(View().lst, addr, size);
      var bp := Lookup(addr, size);
      if bp == NIL { return -1; }
      Delete(bp, i);
      ret := 0;
    }

    method Enable(addr: nat, size: nat) returns (ret: int)
      requires Valid()
      modifies pool, hw
      ensures Valid()
      ensures var i := B.Find(old(View().lst), addr, size);
        if i < cnt then View() == B.Enable(old(View()), i, pick) && ret == (if View().lst[i].active then 0 else -1)
        else View() == old(View()) && ret == -1
    {
      ghost var i := B.Find(View().lst, addr, size);
      var bp := Lookup(addr, size);
      if bp == NIL { return -1; }
      Store(i, pool[bp].(enabled := true));
      ret := Activate(bp, i);
    }

    method Disable(addr: nat, size: nat) returns (ret: int)
      requires Valid()
      modifies pool, hw
      ensures Valid()
      ensures var i := B.Find(old(View().lst), addr, size);
        if i < cnt then View() == B.Disable(old(View()), i) && ret == 0 else View() == old(View()) && ret == -1
    {
      ghost var i := B.Find(View().lst, addr, size);
      var bp := Lookup(addr, size);
      if bp == NIL { return -1; }
      Off(bp, i);
      ret := 0;
    }

    /** `dbg_bp_disable_all`. */
    method DisableAll()
      requires Valid()
      modifies pool, hw
      ensures Valid() && View() == B.DisableFrom(old(View()), 0)
    {
      hide B.SwitchOff, Valid, View;
      Shape();
      var i := 0;
      while i < cnt
        invariant 0 <= i <= cnt && Valid()
        invariant B.DisableFrom(View(), i) == B.DisableFrom(old(View()), 0)
      {
        SwitchOff(lst[i], i);
        i := i + 1;
      }
    }

    /** `dbg_bp_enable_all`: up to the record that the target refuses, which is left as it was. */
    method EnableAll() returns (ret: int)
      requires Valid()
      modifies pool, hw
      ensures Valid() && View() == B.EnableFrom(old(View()), 0, pick)
      ensures ret == if B.EnablesAll(old(View()), 0, pick) then 0 else -1
    {
      hide B.EnableStep, B.EnableStops, Valid, View;
      Shape();
      var n := if cnt > hw.Length then hw.Length else cnt;
      var i := 0;
      while i < n
        invariant 0 <= i <= n && Valid()
        invariant B.EnableFrom(View(), i, pick) == B.EnableFrom(old(View()), 0, pick)
        invariant B.EnablesAll(View(), i, pick) == B.EnablesAll(old(View()), 0, pick)
      {
        ret := On(lst[i], i, true);
        if ret < 0 { return; }
        i := i + 1;
      }
      while i < cnt
        invariant n <= i <= cnt && Valid()
        invariant B.EnableFrom(View(), i, pick) == B.EnableFrom(old(View()), 0, pick)
        invariant B.EnablesAll(View(), i, pick) == B.EnablesAll(old(View()), 0, pick)
      {
        BehindWindow(View(), i);
        var _ := On(lst[i], i, false);
        i := i + 1;
      }
      ret := 0;
    }

    /** `dbg_bp_activate_all`: up to the record that the target refuses, which is left as it was. */
    method ActivateAll() returns (ret: int)
      requires Valid()
      modifies pool, hw
      ensures Valid() && View() == B.RunFrom(old(View()), 0, pick)
      ensures ret == if B.RunsAll(old(View()), 0, pick) then 0 else -1
    {
      hide B.RunStep, B.RunStops, Valid, View;
      Shape();
      var n := if cnt > hw.Length then hw.Length else cnt;
      var i := 0;
      while i < n
        invariant 0 <= i <= n && Valid()
        invariant B.RunFrom(View(), i, pick) == B.RunFrom(old(View()), 0, pick)
        invariant B.RunsAll(View(), i, pick) == B.RunsAll(old(View()), 0, pick)
      {
        ret := Rearm(lst[i], i);
        if ret < 0 { return; }
        i := i + 1;
      }
      ret := 0;
    }

    /** `dbg_bp_deactivate_all`. */
    method DeactivateAll()
      requires Valid()
      modifies pool, hw
      ensures Valid() && View() == B.HaltFrom(old(View()), 0)
    {
      hide B.Retire, Valid, View;
      Shape();
      var n := if cnt > hw.Length then hw.Length else cnt;
      var i := 0;
      while i < n
        invariant 0 <= i <= n && Valid()
        invariant B.HaltFrom(View(), i) == B.HaltFrom(old(View()), 0)
      {
        Retire(lst[i], i);
        i := i + 1;
      }
    }

    /** The loop of `dbg_bp_init`. */
    method LinkAll()
      requires next.Length == B.POOL_SIZE
      modifies next
      ensures Chain(next[..], 0, B.AllRecords())
    {
      var i := 1;
      while i < B.POOL_SIZE
        invariant 1 <= i <= B.POOL_SIZE
        invariant forall k :: 0 <= k < i - 1 ==> next[k] == k + 1
      {
        next[i - 1] := i;
        i := i + 1;
      }
      next[i - 1] := NIL;
      OneChain(next[..], 0);
      assert B.AllRecords()[0..] == B.AllRecords();
    }

    /** `dbg_bp_init`: the pool is one chain. */
    constructor (bpMax: nat, pick: B.Pick)
      requires bpMax >= 1 && B.GoodPick(pick)
      ensures Valid() && View() == B.Initial(bpMax)
    {
      this.pick := pick;
      pool := new B.Rec[B.POOL_SIZE](i => B.Rec(if i < 0 then 0 else i, 0, 0, false, false, -1));
      next := new nat[B.POOL_SIZE](_ => NIL);
      lst := new nat[B.POOL_SIZE](_ => 0);
      hw := new B.Slot[bpMax](_ => B.Vacant);
      cnt, free := 0, 0;
      links := B.AllRecords();
      new;
      hide B.GoodPick, Refs, Deref, Chain, Distinct, Apart;
      NothingListed(pool[..]);
      assert hw[..] == seq(bpMax, _ => B.Vacant);
      assert lst[..0] == [];
      LinkAll();
    }
  }

  lemma NothingListed(pool: seq<B.Rec>)
    requires forall k :: 0 <= k < |pool| ==> pool[k].id == k
    ensures Refs(pool, []) && Deref(pool, []) == [] && Distinct(B.AllRecords()) && Apart([], B.AllRecords())
  {
  }

  lemma BehindWindow(s: B.State, i: nat)
    requires |s.hw| <= i < |s.lst|
    ensures !B.EnableStops(s, i)
  {
  }

  lemma {:induction false} OneChain(next: seq<nat>, k: nat)
    requires |next| == B.POOL_SIZE && k <= B.POOL_SIZE
    requires forall j :: 0 <= j < |next| ==> next[j] == if j < B.POOL_SIZE - 1 then j + 1 else NIL
    ensures Chain(next, k, B.AllRecords()[k..])
    decreases B.POOL_SIZE - k
  {
    if k < B.POOL_SIZE {
      OneChain(next, k + 1);
      assert B.AllRecords()[k..][1..] == B.AllRecords()[k + 1..];
    }
  }
}
