/**
 * The breakpoint bookkeeping of the debugger: a pool of 16 records, a list of the records in use from
 * the most to the least recently used one, and the hardware slots that serve the front of that list.
 *
 * The state here is a value: `lst` holds the records in list order, `free` the pool indices of the free
 * list in link order, `hw` the slots of the target (`bp_max` of them). BreakpointPool does the same in
 * place, on the arrays and links of the original.
 */
module Breakpoints {

  const POOL_SIZE := 16

  /** `struct dbg_bp`; `id` is its place in the pool, which stands for its address. */
  datatype Rec = Rec(id: nat, addr: nat, size: nat, enabled: bool, active: bool, hwId: int)

  /** One hardware comparator. */
  datatype Slot = Vacant | Busy(addr: nat, size: nat)

  datatype State = State(lst: seq<Rec>, free: seq<nat>, hw: seq<Slot>)

  // ---------------------------------------------------------------- the target driver

  predicate HasVacancy(hw: seq<Slot>) {
    exists k :: 0 <= k < |hw| && hw[k] == Vacant
  }

  /** `ice_bp_set` may choose any vacant slot, and fails only if there is none. */
  type Pick = seq<Slot> -> int

  ghost predicate GoodPick(pick: Pick) {
    forall hw :: HasVacancy(hw) ==> 0 <= pick(hw) < |hw| && hw[pick(hw)] == Vacant
  }

  function Released(hw: seq<Slot>, id: int): seq<Slot> {
    if 0 <= id < |hw| then hw[id := Vacant] else hw
  }

  // ---------------------------------------------------------------- the list

  predicate Same(r: Rec, addr: nat, size: nat) {
    r.addr == addr && r.size == size
  }

  /** `dbg_bp_lookup`: the position of the first match, the length of the list if there is none. */
  function Find(lst: seq<Rec>, addr: nat, size: nat): (i: nat)
    ensures i <= |lst|
    ensures i < |lst| ==> Same(lst[i], addr, size)
    ensures forall j :: 0 <= j < i ==> !Same(lst[j], addr, size)
  {
    if lst == [] then 0 else if Same(lst[0], addr, size) then 0 else 1 + Find(lst[1..], addr, size)
  }

  function Without(lst: seq<Rec>, i: nat): seq<Rec>
    requires i < |lst|
  {
    lst[..i] + lst[i + 1..]
  }

  function ToFront(lst: seq<Rec>, i: nat): seq<Rec>
    requires i < |lst|
  {
    [lst[i]] + Without(lst, i)
  }

  // ---------------------------------------------------------------- switching one record

  function Disarm(s: State, i: nat): State
    requires i < |s.lst|
  {
    if s.lst[i].active then
      s.(lst := s.lst[i := s.lst[i].(active := false)], hw := Released(s.hw, s.lst[i].hwId))
    else s
  }

  /** The sweeps forget the slot number, too. */
  function Retire(s: State, i: nat): State
    requires i < |s.lst|
  {
    if s.lst[i].active then
      var t := Disarm(s, i);
      t.(lst := t.lst[i := t.lst[i].(hwId := -1)])
    else s
  }

  /** `ice_bp_set` for the record at position i and the bookkeeping after it. */
  function Arm(s: State, i: nat, pick: Pick): State
    requires i < |s.lst|
  {
    var id := pick(s.hw);
    if HasVacancy(s.hw) && 0 <= id < |s.hw| then
      s.(lst := s.lst[i := s.lst[i].(active := true, hwId := id)], hw := s.hw[id := Busy(s.lst[i].addr, s.lst[i].size)])
    else
      s.(lst := s.lst[i := s.lst[i].(active := false, hwId := -1)])
  }

  /** The end of `dbg_bp_delete`: the record is marked active whether the target has taken it or not, and its
      slot number is then whatever the driver has left. */
  function Promote(s: State, i: nat, pick: Pick): State
    requires i < |s.lst|
  {
    if HasVacancy(s.hw) then Arm(s, i, pick)
    else s.(lst := s.lst[i := s.lst[i].(active := true, hwId := pick(s.hw))])
  }

  /** `dbg_bp_activate`: the record that has just left the window makes room. */
  function Activate(s: State, i: nat, pick: Pick): State
    requires i < |s.lst|
  {
    if s.lst[i].active then s
    else Arm(if |s.lst| > |s.hw| then Disarm(s, |s.hw|) else s, i, pick)
  }

  // ---------------------------------------------------------------- the operations

  function Enabled(s: State, i: nat, on: bool): State
    requires i < |s.lst|
  {
    s.(lst := s.lst[i := s.lst[i].(enabled := on)])
  }

  /** `dbg_bp_new` puts the record at the tail and `dbg_bp_move_to_head` brings it to the front. */
  function New(s: State, addr: nat, size: nat): State
    requires s.free != []
  {
    s.(lst := s.lst + [Rec(s.free[0], addr, size, false, false, -1)], free := s.free[1..])
  }

  /** `target_breakpoint_set`. Room is needed only for a breakpoint that is not listed. */
  function Set(s: State, addr: nat, size: nat, pick: Pick): State
    requires Find(s.lst, addr, size) < |s.lst| || s.free != []
  {
    var i := Find(s.lst, addr, size);
    var t := if i < |s.lst| then s else New(s, addr, size);
    Activate(Enabled(t.(lst := ToFront(t.lst, i)), 0, true), 0, pick)
  }

  /** The record leaves the list for the head of the free list, and its slot is cleared. */
  function Unlisted(s: State, i: nat): State
    requires i < |s.lst|
  {
    State(Without(s.lst, i), [s.lst[i].id] + s.free, if s.lst[i].active then Released(s.hw, s.lst[i].hwId) else s.hw)
  }

  /** `dbg_bp_delete`, for a record in the list: its slot is cleared, and the record that has moved up
      into the window is promoted. */
  function Delete(s: State, i: nat, pick: Pick): State
    requires i < |s.lst| && |s.hw| >= 1
  {
    var t := Unlisted(s, i);
    if s.lst[i].active && |t.lst| >= |t.hw| && t.lst[|t.hw| - 1].enabled then Promote(t, |t.hw| - 1, pick) else t
  }

  /** `target_breakpoint_enable` for a listed record; the record stays where it is. */
  function Enable(s: State, i: nat, pick: Pick): State
    requires i < |s.lst|
  {
    Activate(Enabled(s, i, true), i, pick)
  }

  function Disable(s: State, i: nat): State
    requires i < |s.lst|
  {
    Enabled(Disarm(s, i), i, false)
  }

  /** One turn of `dbg_bp_disable_all`. */
  function SwitchOff(s: State, i: nat): State
    requires i < |s.lst|
  {
    Enabled(Retire(s, i), i, false)
  }

  function Window(s: State): nat {
    if |s.lst| > |s.hw| then |s.hw| else |s.lst|
  }

  function EnableStep(s: State, i: nat, pick: Pick): State
    requires i < |s.lst|
  {
    Enabled(if i < Window(s) && !s.lst[i].active then Arm(s, i, pick) else s, i, true)
  }

  /** The target has no slot for the record. */
  predicate NoSlotFor(s: State, i: nat)
    requires i < |s.lst|
  {
    !s.lst[i].active && !HasVacancy(s.hw)
  }

  /** `dbg_bp_enable_all` stops at the record that the target refuses. */
  predicate EnableStops(s: State, i: nat)
    requires i < |s.lst|
  {
    i < Window(s) && NoSlotFor(s, i)
  }

  /** `dbg_bp_enable_all`: positions i.. of the list. */
  function EnableFrom(s: State, i: nat, pick: Pick): State
    requires i <= |s.lst|
    decreases |s.lst| - i
  {
    if i == |s.lst| || EnableStops(s, i) then s
    else EnableFrom(EnableStep(s, i, pick), i + 1, pick)
  }

  /** It comes to the end of the list. */
  predicate EnablesAll(s: State, i: nat, pick: Pick)
    requires i <= |s.lst|
    decreases |s.lst| - i
  {
    i == |s.lst| || (!EnableStops(s, i) && EnablesAll(EnableStep(s, i, pick), i + 1, pick))
  }

  /** `dbg_bp_disable_all`: positions i.. of the list. */
  function DisableFrom(s: State, i: nat): State
    requires i <= |s.lst|
    decreases |s.lst| - i
  {
    if i == |s.lst| then s
    else DisableFrom(SwitchOff(s, i), i + 1)
  }

  function RunStep(s: State, i: nat, pick: Pick): State
    requires i < |s.lst|
  {
    if s.lst[i].enabled && !s.lst[i].active then Arm(s, i, pick) else s
  }

  predicate RunStops(s: State, i: nat)
    requires i < |s.lst|
  {
    s.lst[i].enabled && NoSlotFor(s, i)
  }

  /** `dbg_bp_activate_all`, when the target is let run: the window, up to the record that the target refuses. */
  function RunFrom(s: State, i: nat, pick: Pick): State
    requires i <= Window(s)
    decreases |s.lst| - i
  {
    if i == Window(s) || RunStops(s, i) then s else RunFrom(RunStep(s, i, pick), i + 1, pick)
  }

  predicate RunsAll(s: State, i: nat, pick: Pick)
    requires i <= Window(s)
    decreases |s.lst| - i
  {
    i == Window(s) || (!RunStops(s, i) && RunsAll(RunStep(s, i, pick), i + 1, pick))
  }

  /** `dbg_bp_deactivate_all`, when the target has halted: the window only. */
  function HaltFrom(s: State, i: nat): State
    requires i <= Window(s)
    decreases |s.lst| - i
  {
    if i == Window(s) then s else HaltFrom(Retire(s, i), i + 1)
  }

  // ---------------------------------------------------------------- the pool

  /** Listed records and the free list share out the pool, and no two listed records are the same. */
  ghost predicate PoolInv(s: State) {
    && |s.lst| + |s.free| == POOL_SIZE
    && (forall i :: 0 <= i < |s.lst| ==> s.lst[i].id < POOL_SIZE)
    && (forall i :: 0 <= i < |s.free| ==> s.free[i] < POOL_SIZE)
    && (forall i, j :: 0 <= i < j < |s.lst| ==> s.lst[i].id != s.lst[j].id)
    && (forall i, j :: 0 <= i < j < |s.free| ==> s.free[i] != s.free[j])
    && (forall i, j :: 0 <= i < |s.lst| && 0 <= j < |s.free| ==> s.lst[i].id != s.free[j])
    && (forall i, j :: 0 <= i < j < |s.lst| ==> !Same(s.lst[i], s.lst[j].addr, s.lst[j].size))
  }

  // ---------------------------------------------------------------- the slots

  /** Active records hold distinct slots, loaded with their address and size, and no slot is held by nobody. */
  ghost predicate Linked(lst: seq<Rec>, hw: seq<Slot>) {
    && (forall i :: 0 <= i < |lst| && lst[i].active ==>
          0 <= lst[i].hwId < |hw| && hw[lst[i].hwId] == Busy(lst[i].addr, lst[i].size))
    && (forall i, j :: 0 <= i < |lst| && 0 <= j < |lst| && i != j && lst[i].active && lst[j].active ==>
          lst[i].hwId != lst[j].hwId)
    && (forall k :: 0 <= k < |hw| && hw[k] != Vacant ==> Held(lst, k))
  }

  predicate Held(lst: seq<Rec>, k: int) {
    exists i :: 0 <= i < |lst| && lst[i].active && lst[i].hwId == k
  }

  /** No record behind the first n is active. */
  predicate ActiveWithin(lst: seq<Rec>, n: nat) {
    forall i :: n <= i < |lst| ==> !lst[i].active
  }

  predicate ActiveAreEnabled(lst: seq<Rec>) {
    forall i :: 0 <= i < |lst| && lst[i].active ==> lst[i].enabled
  }

  ghost predicate SlotInv(s: State) {
    && |s.hw| >= 1
    && Linked(s.lst, s.hw)
    && ActiveWithin(s.lst, |s.hw|)
    && ActiveAreEnabled(s.lst)
  }

  // ---- one change at a time

  lemma DisarmKeepsLinked(s: State, i: nat)
    requires i < |s.lst| && Linked(s.lst, s.hw)
    ensures Linked(Disarm(s, i).lst, Disarm(s, i).hw)
  {
    var t := Disarm(s, i);
    forall k | 0 <= k < |t.hw| && t.hw[k] != Vacant
      ensures Held(t.lst, k)
    {
      var j :| 0 <= j < |s.lst| && s.lst[j].active && s.lst[j].hwId == k;
      assert t.lst[j].active && t.lst[j].hwId == k;
    }
  }

  lemma VacantPick(hw: seq<Slot>, pick: Pick)
    requires GoodPick(pick) && HasVacancy(hw)
    ensures 0 <= pick(hw) < |hw| && hw[pick(hw)] == Vacant
  {
  }

  lemma ArmKeepsLinked(s: State, i: nat, pick: Pick)
    requires i < |s.lst| && Linked(s.lst, s.hw) && !s.lst[i].active && GoodPick(pick)
    ensures Linked(Arm(s, i, pick).lst, Arm(s, i, pick).hw)
    ensures Arm(s, i, pick).lst[i].active <==> HasVacancy(s.hw)
  {
    hide HasVacancy, GoodPick;
    if HasVacancy(s.hw) { VacantPick(s.hw, pick); }
    var t := Arm(s, i, pick);
    forall k | 0 <= k < |t.hw| && t.hw[k] != Vacant
      ensures Held(t.lst, k)
    {
      if HasVacancy(s.hw) && k == pick(s.hw) {
        assert t.lst[i].active && t.lst[i].hwId == k;
      } else {
        var j :| 0 <= j < |s.lst| && s.lst[j].active && s.lst[j].hwId == k;
        assert t.lst[j].active && t.lst[j].hwId == k;
      }
    }
  }

  /** Distinct values below n in a sequence of length n leave none out. */
  lemma {:induction false} Pigeonhole(f: seq<nat>, n: nat, v: nat)
    requires |f| == n && v < n
    requires forall i :: 0 <= i < n ==> f[i] < n
    requires forall i, j :: 0 <= i < j < n ==> f[i] != f[j]
    ensures v in f
    decreases n
  {
    var last := n - 1;
    if last !in f {
      Pigeonhole(f[..last], last, f[last]);
      assert false;
    } else if v != last && v != f[last] {
      var p :| 0 <= p < n && f[p] == last;
      var g := if p == last then f[..last] else f[..last][p := f[last]];
      Pigeonhole(g, last, v);
    }
  }

  /** The position of the record that holds slot k, for the first n slots. */
  lemma {:induction false} Owners(lst: seq<Rec>, hw: seq<Slot>, n: nat) returns (f: seq<nat>)
    requires Linked(lst, hw) && !HasVacancy(hw) && n <= |hw|
    ensures |f| == n
    ensures forall k :: 0 <= k < n ==> f[k] < |lst| && lst[f[k]].active && lst[f[k]].hwId == k
  {
    if n == 0 {
      f := [];
    } else {
      f := Owners(lst, hw, n - 1);
      assert hw[n - 1] != Vacant;
      assert Held(lst, n - 1);
      var i :| 0 <= i < |lst| && lst[i].active && lst[i].hwId == n - 1;
      f := f + [i];
    }
  }

  /** A window with an idle place has a vacant slot. */
  lemma IdlePlaceMeansVacancy(lst: seq<Rec>, hw: seq<Slot>, i: nat)
    requires Linked(lst, hw) && ActiveWithin(lst, |hw|)
    requires i < |hw| && (i < |lst| ==> !lst[i].active)
    ensures HasVacancy(hw)
  {
    if !HasVacancy(hw) {
      var f := Owners(lst, hw, |hw|);
      Pigeonhole(f, |hw|, i);
      assert false;
    }
  }

  /** Linked does not depend on the order of the list. */
  lemma ReorderKeepsLinked(a: seq<Rec>, b: seq<Rec>, hw: seq<Slot>, f: seq<nat>)
    requires Linked(a, hw) && |a| == |b| == |f|
    requires forall j :: 0 <= j < |f| ==> f[j] < |a| && b[j] == a[f[j]]
    requires forall i, j :: 0 <= i < j < |f| ==> f[i] != f[j]
    ensures Linked(b, hw)
  {
    forall k | 0 <= k < |hw| && hw[k] != Vacant
      ensures Held(b, k)
    {
      var i :| 0 <= i < |a| && a[i].active && a[i].hwId == k;
      Pigeonhole(f, |f|, i);
      var j :| 0 <= j < |f| && f[j] == i;
      assert b[j] == a[i];
    }
  }

  /** Where the record at position j of the new list was before. */
  function Before(i: nat, j: nat): nat {
    if j == 0 then i else if j <= i then j - 1 else j
  }

  lemma ToFrontAt(lst: seq<Rec>, i: nat)
    requires i < |lst|
    ensures |ToFront(lst, i)| == |lst|
    ensures forall j :: 0 <= j < |lst| ==> Before(i, j) < |lst| && ToFront(lst, i)[j] == lst[Before(i, j)]
  {
  }

  lemma ToFrontKeepsLinked(lst: seq<Rec>, hw: seq<Slot>, i: nat)
    requires i < |lst| && Linked(lst, hw)
    ensures Linked(ToFront(lst, i), hw)
    ensures ActiveAreEnabled(lst) ==> ActiveAreEnabled(ToFront(lst, i))
  {
    ToFrontAt(lst, i);
    ReorderKeepsLinked(lst, ToFront(lst, i), hw, seq(|lst|, j requires 0 <= j => Before(i, j)));
  }

  lemma EnabledKeepsLinked(s: State, i: nat, on: bool)
    requires i < |s.lst| && Linked(s.lst, s.hw)
    ensures Linked(Enabled(s, i, on).lst, s.hw)
  {
    var t := Enabled(s, i, on);
    forall k | 0 <= k < |s.hw| && s.hw[k] != Vacant
      ensures Held(t.lst, k)
    {
      var j :| 0 <= j < |s.lst| && s.lst[j].active && s.lst[j].hwId == k;
      assert t.lst[j].active && t.lst[j].hwId == k;
    }
  }

  lemma AppendKeepsLinked(lst: seq<Rec>, hw: seq<Slot>, r: Rec)
    requires Linked(lst, hw) && !r.active
    ensures Linked(lst + [r], hw)
  {
    var t := lst + [r];
    forall k | 0 <= k < |hw| && hw[k] != Vacant
      ensures Held(t, k)
    {
      var j :| 0 <= j < |lst| && lst[j].active && lst[j].hwId == k;
      assert t[j] == lst[j];
    }
  }

  lemma WithoutAt(lst: seq<Rec>, i: nat)
    requires i < |lst|
    ensures |Without(lst, i)| == |lst| - 1
    ensures forall j :: 0 <= j < |lst| - 1 ==> Without(lst, i)[j] == lst[if j < i then j else j + 1]
  {
  }

  lemma StillHeld(lst: seq<Rec>, t: seq<Rec>, i: nat, k: int)
    requires i < |lst| == |t| + 1 && forall j :: 0 <= j < |t| ==> t[j] == lst[if j < i then j else j + 1]
    requires Held(lst, k) && !(lst[i].active && lst[i].hwId == k)
    ensures Held(t, k)
  {
    var j :| 0 <= j < |lst| && lst[j].active && lst[j].hwId == k;
    assert t[if j < i then j else j - 1] == lst[j];
  }

  lemma WithoutKeepsLinked(lst: seq<Rec>, hw: seq<Slot>, i: nat)
    requires i < |lst| && Linked(lst, hw)
    ensures Linked(Without(lst, i), if lst[i].active then Released(hw, lst[i].hwId) else hw)
    ensures ActiveAreEnabled(lst) ==> ActiveAreEnabled(Without(lst, i))
  {
    hide Without, Held;
    var t := Without(lst, i);
    var hw' := if lst[i].active then Released(hw, lst[i].hwId) else hw;
    WithoutAt(lst, i);
    forall k | 0 <= k < |hw'| && hw'[k] != Vacant
      ensures Held(t, k)
    {
      StillHeld(lst, t, i, k);
    }
  }

  // ---------------------------------------------------------------- what every operation keeps

  /** Whoever is activated inside the window finds a slot. */
  lemma ArmInWindow(s: State, i: nat, pick: Pick)
    requires SlotInv(s) && GoodPick(pick)
    requires i < |s.lst| && i < |s.hw| && !s.lst[i].active && s.lst[i].enabled
    ensures HasVacancy(s.hw) && SlotInv(Arm(s, i, pick)) && Arm(s, i, pick).lst[i].active
  {
    IdlePlaceMeansVacancy(s.lst, s.hw, i);
    ArmKeepsLinked(s, i, pick);
  }

  lemma DisarmKeepsSlotInv(s: State, i: nat)
    requires SlotInv(s) && i < |s.lst|
    ensures SlotInv(Disarm(s, i))
  {
    DisarmKeepsLinked(s, i);
  }

  /** The slot number of a record that is not active is of no account. */
  lemma IdleNumber(lst: seq<Rec>, hw: seq<Slot>, i: nat)
    requires Linked(lst, hw) && i < |lst| && !lst[i].active
    ensures Linked(lst[i := lst[i].(hwId := -1)], hw)
  {
    var t := lst[i := lst[i].(hwId := -1)];
    forall k | 0 <= k < |hw| && hw[k] != Vacant
      ensures Held(t, k)
    {
      var j :| 0 <= j < |lst| && lst[j].active && lst[j].hwId == k;
      assert t[j].active && t[j].hwId == k;
    }
  }

  lemma RetireKeepsLinked(s: State, i: nat)
    requires Linked(s.lst, s.hw) && i < |s.lst|
    ensures Linked(Retire(s, i).lst, Retire(s, i).hw)
  {
    DisarmKeepsLinked(s, i);
    if s.lst[i].active { IdleNumber(Disarm(s, i).lst, Disarm(s, i).hw, i); }
  }

  lemma RetireKeepsSlotInv(s: State, i: nat)
    requires SlotInv(s) && i < |s.lst|
    ensures SlotInv(Retire(s, i)) && OnlyAt(s, Retire(s, i), i)
    ensures Retire(s, i).lst[i].enabled == s.lst[i].enabled && !Retire(s, i).lst[i].active
  {
    hide Linked;
    RetireKeepsLinked(s, i);
  }

  lemma SwitchOffKeepsSlotInv(s: State, i: nat)
    requires SlotInv(s) && i < |s.lst|
    ensures var t := SwitchOff(s, i);
      SlotInv(t) && OnlyAt(s, t, i) && !t.lst[i].enabled && !t.lst[i].active
  {
    RetireKeepsSlotInv(s, i);
    EnabledKeepsLinked(Retire(s, i), i, false);
  }

  lemma ActivateKeepsSlotInv(s: State, i: nat, pick: Pick)
    requires GoodPick(pick) && |s.hw| >= 1 && Linked(s.lst, s.hw) && ActiveAreEnabled(s.lst)
    requires ActiveWithin(s.lst, |s.hw| + 1) && i < |s.lst| && i < |s.hw| && !s.lst[i].active && s.lst[i].enabled
    ensures SlotInv(Activate(s, i, pick)) && Activate(s, i, pick).lst[i].active
    ensures |Activate(s, i, pick).lst| == |s.lst|
    ensures Activate(s, i, pick).lst[i].enabled && SameRecord(Activate(s, i, pick).lst[i], s.lst[i])
  {
    hide Linked;
    if |s.lst| > |s.hw| {
      DisarmKeepsLinked(s, |s.hw|);
      ArmInWindow(Disarm(s, |s.hw|), i, pick);
    } else {
      ArmInWindow(s, i, pick);
    }
  }

  lemma ActivateActive(s: State, i: nat, pick: Pick)
    requires i < |s.lst| && s.lst[i].active
    ensures Activate(s, i, pick) == s
  {
  }

  lemma NewKeepsSlotInv(s: State, addr: nat, size: nat)
    requires SlotInv(s) && s.free != []
    ensures SlotInv(New(s, addr, size))
  {
    AppendKeepsLinked(s.lst, s.hw, Rec(s.free[0], addr, size, false, false, -1));
  }

  /** The record that is set next: moved to the front and enabled, the others one place back. */
  lemma FrontReady(s: State, i: nat) returns (t: State)
    requires SlotInv(s) && i < |s.lst|
    ensures t == Enabled(s.(lst := ToFront(s.lst, i)), 0, true)
    ensures Linked(t.lst, t.hw) && ActiveAreEnabled(t.lst) && ActiveWithin(t.lst, |t.hw| + 1)
    ensures |t.lst| == |s.lst| && SameRecord(t.lst[0], s.lst[i])
    ensures t.lst[0].enabled && t.lst[0].active == s.lst[i].active
    ensures s.lst[i].active ==> ActiveWithin(t.lst, |t.hw|)
  {
    hide Linked;
    var m := s.(lst := ToFront(s.lst, i));
    ToFrontKeepsLinked(s.lst, s.hw, i);
    ToFrontAt(s.lst, i);
    EnabledKeepsLinked(m, 0, true);
    t := Enabled(m, 0, true);
  }

  /** `target_breakpoint_set` keeps the slots straight, and the breakpoint it sets is always armed. */
  lemma SetKeepsSlotInv(s: State, addr: nat, size: nat, pick: Pick)
    requires SlotInv(s) && GoodPick(pick)
    requires Find(s.lst, addr, size) < |s.lst| || s.free != []
    ensures SlotInv(Set(s, addr, size, pick))
    ensures var r := Set(s, addr, size, pick).lst[0]; Same(r, addr, size) && r.enabled && r.active
  {
    hide Linked, ToFront, Activate, GoodPick;
    var i := Find(s.lst, addr, size);
    var t := s;
    if i == |s.lst| {
      NewKeepsSlotInv(s, addr, size);
      t := New(s, addr, size);
    }
    var u := FrontReady(t, i);
    if !u.lst[0].active {
      ActivateKeepsSlotInv(u, 0, pick);
    } else {
      ActivateActive(u, 0, pick);
    }
  }

  lemma UnlistedKeepsSlotInv(s: State, i: nat)
    requires SlotInv(s) && i < |s.lst|
    ensures SlotInv(Unlisted(s, i))
    ensures |s.hw| < |s.lst| && i < |s.hw| ==> Unlisted(s, i).lst[|s.hw| - 1] == s.lst[|s.hw|] && !s.lst[|s.hw|].active
    ensures s.lst[i].active ==> i < |s.hw|
    ensures |Unlisted(s, i).hw| == |s.hw| >= 1 && |Unlisted(s, i).lst| == |s.lst| - 1
  {
    WithoutKeepsLinked(s.lst, s.hw, i);
    WithoutAt(s.lst, i);
  }

  lemma DeleteKeepsSlotInv(s: State, i: nat, pick: Pick)
    requires SlotInv(s) && GoodPick(pick) && i < |s.lst|
    ensures SlotInv(Delete(s, i, pick))
  {
    hide SlotInv, Arm, Unlisted;
    var t := Unlisted(s, i);
    UnlistedKeepsSlotInv(s, i);
    if s.lst[i].active && |t.lst| >= |t.hw| && t.lst[|t.hw| - 1].enabled {
      ArmInWindow(t, |t.hw| - 1, pick);
    }
  }

  lemma EnableBehindWindow(s: State, i: nat, pick: Pick)
    requires SlotInv(s) && GoodPick(pick) && |s.hw| <= i < |s.lst|
    ensures SlotInv(Enable(s, i, pick)) <==> !HasVacancy(s.hw)
  {
    hide Linked;
    var t := Enabled(s, i, true);
    EnabledKeepsLinked(s, i, true);
    assert Enable(s, i, pick) == Arm(t, i, pick);
    ArmKeepsLinked(t, i, pick);
  }

  lemma EnableInWindow(s: State, i: nat, pick: Pick)
    requires SlotInv(s) && GoodPick(pick) && i < |s.lst| && i < |s.hw| && !s.lst[i].active
    ensures SlotInv(Enable(s, i, pick))
  {
    hide Linked;
    EnabledKeepsLinked(s, i, true);
    ActivateKeepsSlotInv(Enabled(s, i, true), i, pick);
  }

  /** Enabling a listed record keeps the slots straight exactly if the record is active already, lies
      in the window, or finds no slot at all. */
  lemma EnableKeepsSlotInv(s: State, i: nat, pick: Pick)
    requires SlotInv(s) && GoodPick(pick) && i < |s.lst|
    ensures SlotInv(Enable(s, i, pick)) <==> s.lst[i].active || i < |s.hw| || !HasVacancy(s.hw)
  {
    hide Linked, GoodPick, HasVacancy;
    if s.lst[i].active {
      EnabledKeepsLinked(s, i, true);
    } else if i < |s.hw| {
      EnableInWindow(s, i, pick);
    } else {
      EnableBehindWindow(s, i, pick);
    }
  }

  lemma DisableKeepsSlotInv(s: State, i: nat)
    requires SlotInv(s) && i < |s.lst|
    ensures SlotInv(Disable(s, i))
  {
    DisarmKeepsSlotInv(s, i);
    EnabledKeepsLinked(Disarm(s, i), i, false);
  }

  // ---------------------------------------------------------------- what the operations do to the records

  /** The same pool record for the same breakpoint. */
  predicate SameRecord(a: Rec, b: Rec) {
    a.id == b.id && a.addr == b.addr && a.size == b.size
  }

  ghost predicate SameRecords(a: seq<Rec>, b: seq<Rec>) {
    |a| == |b| && forall j :: 0 <= j < |a| ==> SameRecord(a[j], b[j])
  }

  /** Only the record at position i is touched. */
  ghost predicate OnlyAt(s: State, t: State, i: nat) {
    && SameRecords(s.lst, t.lst) && t.free == s.free && |t.hw| == |s.hw|
    && forall j :: 0 <= j < |s.lst| && j != i ==> t.lst[j] == s.lst[j]
  }

  lemma BehindWindow(s: State)
    requires SlotInv(s)
    ensures ActiveWithin(s.lst, Window(s))
  {
  }

  lemma EnableOne(s: State, i: nat, pick: Pick)
    requires SlotInv(s) && GoodPick(pick) && i < |s.lst|
    ensures var t := EnableStep(s, i, pick);
      SlotInv(t) && OnlyAt(s, t, i) && t.lst[i].enabled && (t.lst[i].active <==> i < |s.hw|)
    ensures !EnableStops(s, i)
  {
    hide Linked;
    var t := Enabled(s, i, true);
    EnabledKeepsLinked(s, i, true);
    if i < Window(s) && !s.lst[i].active {
      ArmInWindow(t, i, pick);
      assert Arm(t, i, pick).lst == Enabled(Arm(s, i, pick), i, true).lst;
    }
  }

  /** Enabling all: no record is refused, every one is enabled, and the armed ones are those in the window. */
  lemma {:induction false} EnableFromSpec(s: State, i: nat, pick: Pick)
    requires SlotInv(s) && GoodPick(pick) && i <= |s.lst|
    ensures EnablesAll(s, i, pick)
    ensures var t := EnableFrom(s, i, pick);
      && SlotInv(t) && SameRecords(s.lst, t.lst) && t.free == s.free && |t.hw| == |s.hw|
      && forall j :: 0 <= j < |s.lst| ==>
           if j < i then t.lst[j] == s.lst[j] else t.lst[j].enabled && (t.lst[j].active <==> j < |s.hw|)
    decreases |s.lst| - i
  {
    hide SlotInv, EnableStep, EnableStops;
    if i < |s.lst| {
      EnableOne(s, i, pick);
      EnableFromSpec(EnableStep(s, i, pick), i + 1, pick);
    }
  }

  /** Disabling all, in any state: nothing is enabled, nothing armed. */
  lemma {:induction false} DisableFromSpec(s: State, i: nat)
    requires i <= |s.lst|
    ensures var t := DisableFrom(s, i);
      && SameRecords(s.lst, t.lst) && t.free == s.free && |t.hw| == |s.hw| && (SlotInv(s) ==> SlotInv(t))
      && forall j :: 0 <= j < |s.lst| ==>
           if j < i then t.lst[j] == s.lst[j] else !t.lst[j].enabled && !t.lst[j].active
    decreases |s.lst| - i
  {
    hide SlotInv, SwitchOff;
    if i < |s.lst| {
      SwitchedOff(s, i);
      if SlotInv(s) { SwitchOffKeepsSlotInv(s, i); }
      DisableFromSpec(SwitchOff(s, i), i + 1);
    }
  }

  lemma SwitchedOff(s: State, i: nat)
    requires i < |s.lst|
    ensures var t := SwitchOff(s, i); OnlyAt(s, t, i) && !t.lst[i].enabled && !t.lst[i].active
    ensures var t := Retire(s, i); OnlyAt(s, t, i) && t.lst[i].enabled == s.lst[i].enabled && !t.lst[i].active
  {
    hide Released;
    ReleasedSize(s.hw, s.lst[i].hwId);
  }

  lemma ReleasedSize(hw: seq<Slot>, id: int)
    ensures |Released(hw, id)| == |hw|
  {
  }

  lemma RunOne(s: State, i: nat, pick: Pick)
    requires SlotInv(s) && GoodPick(pick) && i < Window(s)
    ensures var t := RunStep(s, i, pick);
      SlotInv(t) && OnlyAt(s, t, i) && t.lst[i].enabled == s.lst[i].enabled == t.lst[i].active
    ensures !RunStops(s, i)
  {
    if s.lst[i].enabled && !s.lst[i].active { ArmInWindow(s, i, pick); }
  }

  /** Letting the target run arms exactly the enabled records of the window, and none is refused. */
  lemma {:induction false} RunFromSpec(s: State, i: nat, pick: Pick)
    requires SlotInv(s) && GoodPick(pick) && i <= Window(s)
    ensures RunsAll(s, i, pick)
    ensures var t := RunFrom(s, i, pick);
      && SlotInv(t) && SameRecords(s.lst, t.lst) && t.free == s.free && |t.hw| == |s.hw|
      && forall j :: 0 <= j < |s.lst| ==>
           if j < i then t.lst[j] == s.lst[j]
           else t.lst[j].enabled == s.lst[j].enabled && (t.lst[j].active <==> s.lst[j].enabled && j < |s.hw|)
    decreases |s.lst| - i
  {
    hide SlotInv, RunStep, RunStops;
    BehindWindow(s);
    if i < Window(s) {
      RunOne(s, i, pick);
      RunFromSpec(RunStep(s, i, pick), i + 1, pick);
    }
  }

  /** The halt leaves nothing armed in the window and all behind it as it is; with the slots straight, nothing
      is armed there. */
  lemma {:induction false} HaltFromSpec(s: State, i: nat)
    requires i <= Window(s)
    ensures var t := HaltFrom(s, i);
      && SameRecords(s.lst, t.lst) && t.free == s.free && |t.hw| == |s.hw| && (SlotInv(s) ==> SlotInv(t))
      && forall j :: 0 <= j < |s.lst| ==>
           if i <= j < |s.hw| then t.lst[j].enabled == s.lst[j].enabled && !t.lst[j].active else t.lst[j] == s.lst[j]
    decreases |s.lst| - i
  {
    hide SlotInv, Retire;
    if i < Window(s) {
      SwitchedOff(s, i);
      if SlotInv(s) { RetireKeepsSlotInv(s, i); }
      HaltFromSpec(Retire(s, i), i + 1);
    }
  }

  /** Every slot is vacant exactly if no record is armed. */
  lemma VacantIfNoneActive(s: State)
    requires Linked(s.lst, s.hw)
    ensures (forall k :: 0 <= k < |s.hw| ==> s.hw[k] == Vacant) <==> ActiveWithin(s.lst, 0)
  {
    if ActiveWithin(s.lst, 0) {
      assert forall k :: 0 <= k < |s.hw| ==> !Held(s.lst, k);
    }
  }

  /** The list before the record that is set moves to its front. */
  function Listed(s: State, addr: nat, size: nat): State
    requires Find(s.lst, addr, size) < |s.lst| || s.free != []
  {
    if Find(s.lst, addr, size) < |s.lst| then s else New(s, addr, size)
  }

  /** The record to be set has come to the front and is enabled. */
  function Fronted(s: State, addr: nat, size: nat): State
    requires Find(s.lst, addr, size) < |s.lst| || s.free != []
  {
    var u := Listed(s, addr, size);
    Enabled(u.(lst := ToFront(u.lst, Find(s.lst, addr, size))), 0, true)
  }

  /** The slots when it asks for one: the record that has been pushed out of the window has given its own up. */
  function Room(m: State): seq<Slot> {
    if |m.lst| > |m.hw| && m.lst[|m.hw|].active then Released(m.hw, m.lst[|m.hw|].hwId) else m.hw
  }

  /** Setting a breakpoint, in any state: the old order with its record moved to the front, enabled. If it was
      active already no other record is switched; if not, it is armed exactly if there is room, and of the others only
      the record pushed out of the window loses its slot. */
  lemma SetEffect(s: State, addr: nat, size: nat, pick: Pick)
    requires Find(s.lst, addr, size) < |s.lst| || s.free != []
    ensures var i := Find(s.lst, addr, size);
      var u, m, t := Listed(s, addr, size), ToFront(Listed(s, addr, size).lst, i), Set(s, addr, size, pick);
      && SameRecords(m, t.lst) && t.free == u.free && |t.hw| == |s.hw|
      && t.lst != [] && Same(t.lst[0], addr, size) && t.lst[0].enabled
      && (GoodPick(pick) ==>
            if m[0].active then t.lst[0].active && t.hw == s.hw
            else Loaded(Room(Fronted(s, addr, size)), t.hw, t.lst[0]))
      && forall j :: 1 <= j < |t.lst| ==>
           && t.lst[j].enabled == m[j].enabled
           && (t.lst[j].active <==> m[j].active && (m[0].active || j != |s.hw|))
  {
    hide GoodPick, HasVacancy, Released, Activate, ToFront;
    FrontedAt(s, addr, size);
    ActivateEffect(Fronted(s, addr, size), 0, pick);
  }

  lemma FrontedAt(s: State, addr: nat, size: nat)
    requires Find(s.lst, addr, size) < |s.lst| || s.free != []
    ensures var i := Find(s.lst, addr, size);
      var u, t := Listed(s, addr, size), Fronted(s, addr, size);
      && i < |u.lst| && Same(u.lst[i], addr, size)
      && |ToFront(u.lst, i)| == |t.lst| == |u.lst| && t.hw == s.hw && t.free == u.free
      && t.lst == ToFront(u.lst, i)[0 := u.lst[i].(enabled := true)] && ToFront(u.lst, i)[0] == u.lst[i]
  {
    hide ToFront;
    ToFrontAt(Listed(s, addr, size).lst, Find(s.lst, addr, size));
  }

  /** The slots after a record has asked for one: loaded with its address and size, if there was one vacant. */
  predicate Loaded(room: seq<Slot>, hw: seq<Slot>, r: Rec) {
    if HasVacancy(room) then
      r.active && 0 <= r.hwId < |room| && room[r.hwId] == Vacant && hw == room[r.hwId := Busy(r.addr, r.size)]
    else
      !r.active && hw == room
  }

  lemma ActivateEffect(m: State, i: nat, pick: Pick)
    requires i < |m.lst|
    ensures var r := Activate(m, i, pick);
      && SameRecords(m.lst, r.lst) && r.free == m.free && |r.hw| == |m.hw|
      && r.lst[i].enabled == m.lst[i].enabled
      && (GoodPick(pick) ==>
            if m.lst[i].active then r.lst[i].active && r.hw == m.hw else Loaded(Room(m), r.hw, r.lst[i]))
      && forall j :: 0 <= j < |m.lst| && j != i ==>
           && r.lst[j].enabled == m.lst[j].enabled
           && (r.lst[j].active <==> m.lst[j].active && (m.lst[i].active || j != |m.hw|))
  {
    hide GoodPick, HasVacancy, Released;
    ReleasedSize(m.hw, if |m.lst| > |m.hw| then m.lst[|m.hw|].hwId else 0);
    if GoodPick(pick) && HasVacancy(Room(m)) { VacantPick(Room(m), pick); }
  }

  /** What the two sweeps report, in any state: success if and only if every record has been enabled, and every
      one of the window armed; or if every enabled one of the window has been armed. */
  lemma {:induction false} EnablesAllMeans(s: State, i: nat, pick: Pick)
    requires i <= |s.lst| && GoodPick(pick)
    ensures var t := EnableFrom(s, i, pick);
      && |t.lst| == |s.lst| && (forall j :: 0 <= j < i ==> t.lst[j] == s.lst[j])
      && (EnablesAll(s, i, pick) <==>
            forall j :: i <= j < |s.lst| ==> t.lst[j].enabled && (j < Window(s) ==> t.lst[j].active))
    decreases |s.lst| - i
  {
    hide GoodPick;
    if i < |s.lst| && HasVacancy(s.hw) { VacantPick(s.hw, pick); }
    if i < |s.lst| {
      if EnableStops(s, i) {
        assert !EnableFrom(s, i, pick).lst[i].active;
      } else {
        EnablesAllMeans(EnableStep(s, i, pick), i + 1, pick);
        assert EnableStep(s, i, pick).lst[i].enabled;
      }
    }
  }

  lemma {:induction false} RunsAllMeans(s: State, i: nat, pick: Pick)
    requires i <= Window(s) && GoodPick(pick)
    ensures var t := RunFrom(s, i, pick);
      && |t.lst| == |s.lst| && (forall j :: 0 <= j < i ==> t.lst[j] == s.lst[j])
      && (RunsAll(s, i, pick) <==> forall j :: i <= j < Window(s) && t.lst[j].enabled ==> t.lst[j].active)
    decreases |s.lst| - i
  {
    hide GoodPick;
    if i < |s.lst| && HasVacancy(s.hw) { VacantPick(s.hw, pick); }
    if i < Window(s) {
      if RunStops(s, i) {
        assert !RunFrom(s, i, pick).lst[i].active;
      } else {
        RunsAllMeans(RunStep(s, i, pick), i + 1, pick);
        assert RunStep(s, i, pick).lst[i].enabled ==> RunStep(s, i, pick).lst[i].active;
      }
    }
  }

  /** Enabling a breakpoint where it is, in any state: if it was active nothing but its mark changes; if not, it
      is armed exactly if there is room, and of the others only the first one behind the window loses its slot. */
  lemma EnableEffect(s: State, i: nat, pick: Pick)
    requires i < |s.lst| && GoodPick(pick)
    ensures var t := Enable(s, i, pick);
      && SameRecords(s.lst, t.lst) && t.free == s.free && |t.hw| == |s.hw| && t.lst[i].enabled
      && (if s.lst[i].active then t.lst[i].active && t.hw == s.hw else Loaded(Room(s), t.hw, t.lst[i]))
      && forall j :: 0 <= j < |s.lst| && j != i ==>
           && t.lst[j].enabled == s.lst[j].enabled
           && (t.lst[j].active <==> s.lst[j].active && (s.lst[i].active || j != |s.hw|))
  {
    hide GoodPick, HasVacancy, Released, Activate;
    ActivateEffect(Enabled(s, i, true), i, pick);
    assert Room(Enabled(s, i, true)) == Room(s);
  }

  /** Disabling a breakpoint, in any state: it is neither enabled nor armed, its slot is vacant if it had one, and
      nothing else changes. */
  lemma DisableEffect(s: State, i: nat)
    requires i < |s.lst|
    ensures var t := Disable(s, i);
      && OnlyAt(s, t, i) && !t.lst[i].enabled && !t.lst[i].active
      && forall k :: 0 <= k < |s.hw| ==>
           t.hw[k] == if s.lst[i].active && k == s.lst[i].hwId then Vacant else s.hw[k]
  {
  }

  /** Deleting a breakpoint, in any state, closes the gap it leaves. If it was armed, the record that moves up
      into the window is armed in its place, provided it is enabled; nothing else changes. */
  lemma DeleteEffect(s: State, i: nat, pick: Pick)
    requires |s.hw| >= 1 && GoodPick(pick) && i < |s.lst|
    ensures var t := Delete(s, i, pick);
      && SameRecords(Without(s.lst, i), t.lst) && t.free == [s.lst[i].id] + s.free && |t.hw| == |s.hw|
      && forall j :: 0 <= j < |t.lst| ==>
           var was := Without(s.lst, i)[j];
           && t.lst[j].enabled == was.enabled
           && (t.lst[j].active <==>
                 was.active || (s.lst[i].active && j == |s.hw| - 1 && |s.hw| < |s.lst| && was.enabled))
    ensures var t, freed := Delete(s, i, pick), Unlisted(s, i).hw;
      if s.lst[i].active && |s.hw| < |s.lst| && Without(s.lst, i)[|s.hw| - 1].enabled && HasVacancy(freed)
      then Loaded(freed, t.hw, t.lst[|s.hw| - 1])
      else t.hw == freed
    ensures var freed := Unlisted(s, i).hw;
      |freed| == |s.hw| && forall k :: 0 <= k < |freed| ==>
        freed[k] == if s.lst[i].active && k == s.lst[i].hwId then Vacant else s.hw[k]
  {
    hide GoodPick, HasVacancy, Without;
    WithoutAt(s.lst, i);
    ReleasedSize(s.hw, s.lst[i].hwId);
    var t := Unlisted(s, i);
    if HasVacancy(t.hw) { VacantPick(t.hw, pick); }
  }

  // ---------------------------------------------------------------- the pool is shared out

  lemma SameRecordsKeepPoolInv(s: State, t: State)
    requires PoolInv(s) && SameRecords(s.lst, t.lst) && t.free == s.free
    ensures PoolInv(t)
  {
  }

  lemma ToFrontKeepsPoolInv(s: State, i: nat)
    requires PoolInv(s) && i < |s.lst|
    ensures PoolInv(s.(lst := ToFront(s.lst, i)))
  {
    ToFrontAt(s.lst, i);
  }

  lemma NewKeepsPoolInv(s: State, addr: nat, size: nat)
    requires PoolInv(s) && s.free != [] && Find(s.lst, addr, size) == |s.lst|
    ensures PoolInv(New(s, addr, size))
  {
  }

  lemma UnlistedKeepsPoolInv(s: State, i: nat)
    requires PoolInv(s) && i < |s.lst|
    ensures PoolInv(Unlisted(s, i))
  {
    hide Without, Released;
    WithoutAt(s.lst, i);
  }

  lemma FindBound(lst: seq<Rec>, addr: nat, size: nat)
    ensures Find(lst, addr, size) <= |lst|
  {
  }

  lemma UnlistedSize(s: State, i: nat)
    requires i < |s.lst|
    ensures |Unlisted(s, i).lst| == |s.lst| - 1 && |Unlisted(s, i).hw| == |s.hw|
  {
  }

  lemma SetKeepsPoolInv(s: State, addr: nat, size: nat, pick: Pick)
    requires PoolInv(s) && (Find(s.lst, addr, size) < |s.lst| || s.free != [])
    ensures PoolInv(Set(s, addr, size, pick))
  {
    hide PoolInv, Set, ToFront, Find;
    FindBound(s.lst, addr, size);
    var i := Find(s.lst, addr, size);
    var u := Listed(s, addr, size);
    if i == |s.lst| { NewKeepsPoolInv(s, addr, size); }
    FrontedAt(s, addr, size);
    ToFrontKeepsPoolInv(u, i);
    SetEffect(s, addr, size, pick);
    SameRecordsKeepPoolInv(u.(lst := ToFront(u.lst, i)), Set(s, addr, size, pick));
  }

  lemma PromoteAlike(s: State, i: nat, pick: Pick)
    requires i < |s.lst|
    ensures var t := Promote(s, i, pick); SameRecords(s.lst, t.lst) && t.free == s.free && |t.hw| == |s.hw|
    ensures var t := Arm(s, i, pick); SameRecords(s.lst, t.lst) && t.free == s.free && |t.hw| == |s.hw|
  {
    hide HasVacancy;
  }

  lemma DeleteKeepsPoolInv(s: State, i: nat, pick: Pick)
    requires PoolInv(s) && |s.hw| >= 1 && i < |s.lst|
    ensures PoolInv(Delete(s, i, pick)) && |Delete(s, i, pick).hw| == |s.hw|
  {
    hide PoolInv, Unlisted, Promote;
    UnlistedKeepsPoolInv(s, i);
    UnlistedSize(s, i);
    var t := Unlisted(s, i);
    if s.lst[i].active && |t.lst| >= |t.hw| && t.lst[|t.hw| - 1].enabled {
      PromoteAlike(t, |t.hw| - 1, pick);
      SameRecordsKeepPoolInv(t, Promote(t, |t.hw| - 1, pick));
    }
  }

  /** A record is switched, and stays the same record. */
  lemma SwitchAlike(s: State, i: nat, pick: Pick)
    requires i < |s.lst|
    ensures var t := EnableStep(s, i, pick); SameRecords(s.lst, t.lst) && t.free == s.free && |t.hw| == |s.hw|
    ensures var t := RunStep(s, i, pick); SameRecords(s.lst, t.lst) && t.free == s.free && |t.hw| == |s.hw|
  {
    hide Arm;
    PromoteAlike(s, i, pick);
  }

  lemma {:induction false} EnableFromAlike(s: State, i: nat, pick: Pick)
    requires i <= |s.lst|
    ensures var t := EnableFrom(s, i, pick); SameRecords(s.lst, t.lst) && t.free == s.free && |t.hw| == |s.hw|
    decreases |s.lst| - i
  {
    hide EnableStep, EnableStops;
    if i < |s.lst| && !EnableStops(s, i) {
      SwitchAlike(s, i, pick);
      EnableFromAlike(EnableStep(s, i, pick), i + 1, pick);
    }
  }

  lemma {:induction false} RunFromAlike(s: State, i: nat, pick: Pick)
    requires i <= Window(s)
    ensures var t := RunFrom(s, i, pick); SameRecords(s.lst, t.lst) && t.free == s.free && |t.hw| == |s.hw|
    decreases |s.lst| - i
  {
    hide RunStep, RunStops;
    if i < Window(s) && !RunStops(s, i) {
      SwitchAlike(s, i, pick);
      RunFromAlike(RunStep(s, i, pick), i + 1, pick);
    }
  }

  // ---------------------------------------------------------------- whole runs

  function AllRecords(): (ids: seq<nat>)
    ensures |ids| == POOL_SIZE && forall k :: 0 <= k < POOL_SIZE ==> ids[k] == k
  {
    seq(POOL_SIZE, i => i)
  }

  function Initial(bpMax: nat): State {
    State([], AllRecords(), seq(bpMax, _ => Vacant))
  }

  /** The calls of the debugger. Each brings its own choice of slots. */
  datatype Op =
    | SetAt(addr: nat, size: nat, pick: Pick)
    | ClearAt(addr: nat, size: nat, pick: Pick)
    | DeleteRec(id: nat, pick: Pick)
    | EnableAt(addr: nat, size: nat, pick: Pick)
    | DisableAt(addr: nat, size: nat)
    | EnableAll(pick: Pick)
    | DisableAll
    | Go(pick: Pick)
    | Halted

  ghost predicate GoodOp(op: Op) {
    match op
    case SetAt(_, _, pick) => GoodPick(pick)
    case ClearAt(_, _, pick) => GoodPick(pick)
    case DeleteRec(_, pick) => GoodPick(pick)
    case EnableAt(_, _, pick) => GoodPick(pick)
    case EnableAll(pick) => GoodPick(pick)
    case Go(pick) => GoodPick(pick)
    case _ => true
  }

  /** `if (bp == bpctl->lst[i])` of `dbg_bp_delete`. */
  function FindRec(lst: seq<Rec>, id: nat): (i: nat)
    ensures i <= |lst| && (i < |lst| ==> lst[i].id == id)
  {
    if lst == [] then 0 else if lst[0].id == id then 0 else 1 + FindRec(lst[1..], id)
  }

  /** A new breakpoint needs room in the pool, and a record to delete has to be listed. */
  predicate Callable(s: State, op: Op) {
    match op
    case SetAt(addr, size, _) => Find(s.lst, addr, size) < |s.lst| || s.free != []
    case DeleteRec(id, _) => FindRec(s.lst, id) < |s.lst|
    case _ => true
  }

  function Apply(s: State, op: Op): State
    requires Callable(s, op) && |s.hw| >= 1
  {
    match op
    case SetAt(addr, size, pick) => Set(s, addr, size, pick)
    case ClearAt(addr, size, pick) =>
      var i := Find(s.lst, addr, size);
      if i < |s.lst| then Delete(s, i, pick) else s
    case DeleteRec(id, pick) => Delete(s, FindRec(s.lst, id), pick)
    case EnableAt(addr, size, pick) =>
      var i := Find(s.lst, addr, size);
      if i < |s.lst| then Enable(s, i, pick) else s
    case DisableAt(addr, size) =>
      var i := Find(s.lst, addr, size);
      if i < |s.lst| then Disable(s, i) else s
    case EnableAll(pick) => EnableFrom(s, 0, pick)
    case DisableAll => DisableFrom(s, 0)
    case Go(pick) => RunFrom(s, 0, pick)
    case Halted => HaltFrom(s, 0)
  }

  /** The call enables a record behind the window while a slot is vacant. */
  predicate EnablesBehindWindow(s: State, op: Op) {
    op.EnableAt? &&
    var i := Find(s.lst, op.addr, op.size);
    |s.hw| <= i < |s.lst| && HasVacancy(s.hw)
  }

  lemma SwitchKeepsPoolInv(s: State, i: nat, pick: Pick)
    requires PoolInv(s) && i < |s.lst|
    ensures PoolInv(Enable(s, i, pick)) && |Enable(s, i, pick).hw| == |s.hw|
    ensures PoolInv(Disable(s, i)) && |Disable(s, i).hw| == |s.hw|
  {
    hide PoolInv;
    SameRecordsKeepPoolInv(s, Enable(s, i, pick));
    SameRecordsKeepPoolInv(s, Disable(s, i));
  }

  /** The four sweeps switch records and do nothing else. */
  predicate IsSweep(op: Op) {
    op.EnableAll? || op.DisableAll? || op.Go? || op.Halted?
  }

  lemma SweepKeepsSlotInv(s: State, op: Op)
    requires SlotInv(s) && GoodOp(op) && IsSweep(op)
    ensures SlotInv(Apply(s, op))
  {
    hide SlotInv;
    SlotsThere(s);
    match op
    case EnableAll(pick) => EnableFromSpec(s, 0, pick);
    case DisableAll => DisableFromSpec(s, 0);
    case Go(pick) => RunFromSpec(s, 0, pick);
    case Halted => HaltFromSpec(s, 0);
  }

  lemma SweepAlike(s: State, op: Op)
    requires |s.hw| >= 1 && IsSweep(op)
    ensures var t := Apply(s, op); SameRecords(s.lst, t.lst) && t.free == s.free && |t.hw| == |s.hw|
  {
    match op
    case EnableAll(pick) => EnableFromAlike(s, 0, pick);
    case DisableAll => DisableFromSpec(s, 0);
    case Go(pick) => RunFromAlike(s, 0, pick);
    case Halted => HaltFromSpec(s, 0);
  }

  lemma SlotsThere(s: State)
    requires SlotInv(s)
    ensures |s.hw| >= 1
    ensures forall i :: |s.hw| <= i < |s.lst| ==> !s.lst[i].active
  {
  }

  /** Every call, in every state, keeps the pool shared out. */
  lemma OpKeepsPool(s: State, op: Op)
    requires PoolInv(s) && |s.hw| >= 1 && Callable(s, op)
    ensures PoolInv(Apply(s, op)) && |Apply(s, op).hw| == |s.hw|
  {
    hide PoolInv, Set, Delete, Enable, Disable, Find;
    match op
    case SetAt(addr, size, pick) =>
      SetKeepsPoolInv(s, addr, size, pick);
      SetEffect(s, addr, size, pick);
    case ClearAt(addr, size, pick) =>
      var i := Find(s.lst, addr, size);
      if i < |s.lst| { DeleteKeepsPoolInv(s, i, pick); }
    case DeleteRec(id, pick) =>
      DeleteKeepsPoolInv(s, FindRec(s.lst, id), pick);
    case EnableAt(addr, size, pick) =>
      var i := Find(s.lst, addr, size);
      if i < |s.lst| { SwitchKeepsPoolInv(s, i, pick); }
    case DisableAt(addr, size) =>
      var i := Find(s.lst, addr, size);
      if i < |s.lst| { SwitchKeepsPoolInv(s, i, hw => 0); }
    case _ =>
      SweepAlike(s, op);
      SameRecordsKeepPoolInv(s, Apply(s, op));
  }

  lemma OpKeepsSlots(s: State, op: Op)
    requires SlotInv(s) && |s.hw| >= 1 && GoodOp(op) && Callable(s, op)
    ensures SlotInv(Apply(s, op)) <==> !EnablesBehindWindow(s, op)
  {
    hide SlotInv, GoodPick, Set, Delete, Enable, Disable;
    SlotsThere(s);
    match op
    case SetAt(addr, size, pick) => SetKeepsSlotInv(s, addr, size, pick);
    case ClearAt(addr, size, pick) =>
      var i := Find(s.lst, addr, size);
      if i < |s.lst| { DeleteKeepsSlotInv(s, i, pick); }
    case DeleteRec(id, pick) => DeleteKeepsSlotInv(s, FindRec(s.lst, id), pick);
    case EnableAt(addr, size, pick) =>
      var i := Find(s.lst, addr, size);
      if i < |s.lst| { EnableKeepsSlotInv(s, i, pick); }
    case DisableAt(addr, size) =>
      var i := Find(s.lst, addr, size);
      if i < |s.lst| { DisableKeepsSlotInv(s, i); }
    case _ =>
      SweepKeepsSlotInv(s, op);
  }

  /** Every call keeps the pool shared out, whatever the slots are like, and keeps straight slots straight
      exactly if it does not enable a record behind the window while a slot is vacant. */
  lemma OpKeepsInv(s: State, op: Op)
    requires PoolInv(s) && |s.hw| >= 1 && GoodOp(op) && Callable(s, op)
    ensures PoolInv(Apply(s, op)) && |Apply(s, op).hw| == |s.hw|
    ensures SlotInv(s) ==> (SlotInv(Apply(s, op)) <==> !EnablesBehindWindow(s, op))
  {
    hide PoolInv, SlotInv, Apply;
    OpKeepsPool(s, op);
    if SlotInv(s) { OpKeepsSlots(s, op); }
  }

  ghost predicate Possible(s: State, ops: seq<Op>)
    decreases |ops|
  {
    ops == [] || (|s.hw| >= 1 && GoodOp(ops[0]) && Callable(s, ops[0]) && Possible(Apply(s, ops[0]), ops[1..]))
  }

  ghost function Final(s: State, ops: seq<Op>): State
    requires Possible(s, ops)
    decreases |ops|
  {
    if ops == [] then s else Final(Apply(s, ops[0]), ops[1..])
  }

  /** Every enable of the run concerns an active record or one in the window, or finds no vacant slot. */
  ghost predicate EnablesInWindow(s: State, ops: seq<Op>)
    requires Possible(s, ops)
    decreases |ops|
  {
    ops == [] || (!EnablesBehindWindow(s, ops[0]) && EnablesInWindow(Apply(s, ops[0]), ops[1..]))
  }

  lemma {:induction false} RunKeepsInv(s: State, ops: seq<Op>)
    requires PoolInv(s) && |s.hw| >= 1 && Possible(s, ops)
    ensures PoolInv(Final(s, ops)) && |Final(s, ops).hw| == |s.hw|
    ensures SlotInv(s) && EnablesInWindow(s, ops) ==> SlotInv(Final(s, ops))
    decreases |ops|
  {
    hide PoolInv, SlotInv, Apply, GoodOp;
    if ops != [] {
      OpKeepsInv(s, ops[0]);
      RunKeepsInv(Apply(s, ops[0]), ops[1..]);
    }
  }

  lemma InitialInv(bpMax: nat)
    requires bpMax >= 1
    ensures PoolInv(Initial(bpMax)) && SlotInv(Initial(bpMax)) && |Initial(bpMax).hw| == bpMax
  {
  }

  /** From start-up on, whatever is called in whatever order and whichever slots the target gives out: listed
      and free records share out the pool, and no breakpoint is listed twice. And if no record behind the window
      is enabled while a slot is vacant, active records lie in the window, and the slots in use are theirs. */
  lemma SlotsAndPoolStayStraight(bpMax: nat, ops: seq<Op>)
    requires bpMax >= 1 && Possible(Initial(bpMax), ops)
    ensures PoolInv(Final(Initial(bpMax), ops))
    ensures EnablesInWindow(Initial(bpMax), ops) ==> SlotInv(Final(Initial(bpMax), ops))
  {
    hide PoolInv, SlotInv;
    InitialInv(bpMax);
    RunKeepsInv(Initial(bpMax), ops);
  }

  /** After any such run, letting the target run loads the slots with exactly the enabled records of the
      window, and a halt then empties them all. */
  lemma RunThenHalt(bpMax: nat, ops: seq<Op>, pick: Pick)
    requires bpMax >= 1 && Possible(Initial(bpMax), ops) && EnablesInWindow(Initial(bpMax), ops) && GoodPick(pick)
    ensures var s := Final(Initial(bpMax), ops);
      && |s.hw| == bpMax
      && var t := Apply(s, Go(pick));
      && SameRecords(s.lst, t.lst) && |t.hw| == bpMax
      && (forall j :: 0 <= j < |t.lst| ==> (t.lst[j].active <==> s.lst[j].enabled && j < bpMax))
      && Apply(t, Halted).hw == seq(bpMax, _ => Vacant)
  {
    hide PoolInv, Linked, RunFrom, HaltFrom, Possible, EnablesInWindow, Final;
    InitialInv(bpMax);
    RunKeepsInv(Initial(bpMax), ops);
    var s := Final(Initial(bpMax), ops);
    RunFromSpec(s, 0, pick);
    var t := Apply(s, Go(pick));
    HaltFromSpec(t, 0);
    VacantIfNoneActive(Apply(t, Halted));
  }

  // ---------------------------------------------------------------- enabling behind the window

  predicate Unknown(lst: seq<Rec>, addr: nat, size: nat) {
    forall j :: 0 <= j < |lst| ==> !Same(lst[j], addr, size)
  }

  lemma ActiveHolds(s: State, i: nat)
    requires SlotInv(s) && i < |s.lst| && s.lst[i].active
    ensures 0 <= s.lst[i].hwId < |s.hw|
  {
  }

  /** The last record of the window gives up its slot, and no other is vacant. */
  lemma OneSlotLeft(s: State) returns (d: State, id: nat)
    requires SlotInv(s) && !HasVacancy(s.hw) && |s.hw| <= |s.lst| && s.lst[|s.hw| - 1].active
    ensures d == Disable(s, |s.hw| - 1) && OnlyAt(s, d, |s.hw| - 1) && !d.lst[|s.hw| - 1].active
    ensures id < |d.hw| && forall k :: 0 <= k < |d.hw| ==> (d.hw[k] == Vacant <==> k == id)
  {
    hide Linked;
    ActiveHolds(s, |s.hw| - 1);
    id := s.lst[|s.hw| - 1].hwId;
    d := Disable(s, |s.hw| - 1);
    assert d.hw == s.hw[id := Vacant];
  }

  /** A record behind the window takes the only vacant slot. */
  lemma TakesLastSlot(d: State, i: nat, id: nat, pick: Pick)
    requires GoodPick(pick) && |d.hw| <= i < |d.lst| && !d.lst[i].active && !d.lst[|d.hw|].active
    requires id < |d.hw| && forall k :: 0 <= k < |d.hw| ==> (d.hw[k] == Vacant <==> k == id)
    ensures var t := Enable(d, i, pick);
      OnlyAt(d, t, i) && t.lst[i].active && !HasVacancy(t.hw)
  {
    assert d.hw[id] == Vacant;
    VacantPick(d.hw, pick);
  }

  /** With every slot taken, disabling the last record of the window leaves one slot, and enabling a
      record behind the window takes it. */
  lemma SlotGoesBehindWindow(s: State, i: nat, pick: Pick) returns (t: State)
    requires SlotInv(s) && GoodPick(pick) && !HasVacancy(s.hw) && |s.hw| <= i < |s.lst| && s.lst[|s.hw| - 1].active
    ensures t == Enable(Disable(s, |s.hw| - 1), i, pick)
    ensures SameRecords(s.lst, t.lst) && t.free == s.free && |t.hw| == |s.hw|
    ensures !t.lst[|s.hw| - 1].active && t.lst[i].active && !HasVacancy(t.hw)
  {
    hide SlotInv, GoodPick, HasVacancy, Enable, Disable;
    SlotsThere(s);
    var d, id := OneSlotLeft(s);
    TakesLastSlot(d, i, id, pick);
    t := Enable(d, i, pick);
  }

  /** A new breakpoint finds no slot when none is vacant and the record it pushes out of the window is idle. */
  lemma SetWithoutSlot(s: State, addr: nat, size: nat, pick: Pick)
    requires |s.hw| >= 1 && !HasVacancy(s.hw) && |s.hw| <= |s.lst| && !s.lst[|s.hw| - 1].active
    requires s.free != [] && Unknown(s.lst, addr, size)
    ensures var t := Set(s, addr, size, pick);
      |t.lst| == |s.lst| + 1 && Same(t.lst[0], addr, size) && t.lst[0].enabled && !t.lst[0].active
  {
    var n := |s.lst|;
    assert Find(s.lst, addr, size) == n;
    var u := New(s, addr, size);
    ToFrontAt(u.lst, n);
    assert u.lst[n].addr == addr;
  }

  /** What EnablesBehindWindow leads to: in any state with every slot taken, disable the last record of
      the window, enable one behind it and set a new breakpoint. The call reports success, and the
      breakpoint at the head of the list is enabled and not armed. */
  lemma EnableBehindWindowStarvesSet(s: State, i: nat, addr: nat, size: nat, pick: Pick)
    requires SlotInv(s) && GoodPick(pick) && !HasVacancy(s.hw) && |s.hw| <= i < |s.lst| && s.lst[|s.hw| - 1].active
    requires s.free != [] && Unknown(s.lst, addr, size)
    ensures var t := Enable(Disable(s, |s.hw| - 1), i, pick);
      && t.free != []
      && var r := Set(t, addr, size, pick).lst;
         r != [] && Same(r[0], addr, size) && r[0].enabled && !r[0].active
  {
    var t := SlotGoesBehindWindow(s, i, pick);
    SetWithoutSlot(t, addr, size, pick);
  }

  lemma NotFound(lst: seq<Rec>, addr: nat, size: nat)
    requires Unknown(lst, addr, size)
    ensures Find(lst, addr, size) == |lst|
  {
  }

  /** A new record comes to the front, the others one place back. */
  lemma NewToFront(s: State, addr: nat, size: nat)
    requires s.free != []
    ensures var u := New(s, addr, size);
      && |ToFront(u.lst, |s.lst|)| == |s.lst| + 1 && u.free == s.free[1..]
      && forall j :: 0 <= j < |s.lst| ==> ToFront(u.lst, |s.lst|)[j + 1] == s.lst[j]
  {
    ToFrontAt(New(s, addr, size).lst, |s.lst|);
  }

  lemma SetUnknown(s: State, addr: nat, size: nat, pick: Pick) returns (t: State)
    requires SlotInv(s) && GoodPick(pick) && s.free != [] && Unknown(s.lst, addr, size)
    ensures t == Set(s, addr, size, pick) && SlotInv(t) && |t.hw| == |s.hw| && t.free == s.free[1..]
    ensures |t.lst| == |s.lst| + 1 && Same(t.lst[0], addr, size) && t.lst[0].active
    ensures forall j :: 0 <= j < |s.lst| ==> SameRecord(t.lst[j + 1], s.lst[j])
  {
    hide Set, SlotInv, GoodPick, Find, ToFront, New;
    NotFound(s.lst, addr, size);
    SetKeepsSlotInv(s, addr, size, pick);
    SetEffect(s, addr, size, pick);
    NewToFront(s, addr, size);
    t := Set(s, addr, size, pick);
  }

  /** Such a state: one slot, two breakpoints. */
  lemma TwoBreakpointsOneSlot(a: nat, b: nat, size: nat, pick: Pick) returns (s: State)
    requires GoodPick(pick) && a != b
    ensures s == Set(Set(Initial(1), a, size, pick), b, size, pick)
    ensures SlotInv(s) && !HasVacancy(s.hw) && |s.hw| == 1 && |s.lst| == 2 && s.lst[0].active && |s.free| == 14
    ensures Same(s.lst[0], b, size) && Same(s.lst[1], a, size)
  {
    hide Set, Find;
    var t := SetUnknown(Initial(1), a, size, pick);
    s := SetUnknown(t, b, size, pick);
    assert SameRecord(s.lst[0 + 1], t.lst[0]);
    assert s.hw[s.lst[0].hwId] != Vacant;
  }

  // ---------------------------------------------------------------- deleting, with the slots straight or not

  /** Active records have slot numbers of the target, and none of the lost slots, which are loaded all the
      same. With nothing lost this holds in every run, whatever is enabled. */
  ghost predicate Ranged(s: State, lost: set<int>) {
    && (forall k :: k in lost ==> 0 <= k < |s.hw| && s.hw[k] != Vacant)
    && (forall i :: 0 <= i < |s.lst| && s.lst[i].active ==> 0 <= s.lst[i].hwId < |s.hw| && s.lst[i].hwId !in lost)
  }

  lemma DisarmKeepsRange(s: State, i: nat, lost: set<int>)
    requires Ranged(s, lost) && i < |s.lst|
    ensures Ranged(Disarm(s, i), lost) && |Disarm(s, i).hw| == |s.hw| && |Disarm(s, i).lst| == |s.lst|
    ensures Ranged(Retire(s, i), lost) && |Retire(s, i).hw| == |s.hw| && |Retire(s, i).lst| == |s.lst|
  {
  }

  lemma ArmKeepsRange(s: State, i: nat, pick: Pick, lost: set<int>)
    requires Ranged(s, lost) && i < |s.lst| && GoodPick(pick)
    ensures var t := Arm(s, i, pick); Ranged(t, lost) && |t.hw| == |s.hw| && |t.lst| == |s.lst|
  {
    hide GoodPick, HasVacancy;
    if HasVacancy(s.hw) { VacantPick(s.hw, pick); }
  }

  lemma EnabledKeepsRange(s: State, i: nat, on: bool, lost: set<int>)
    requires Ranged(s, lost) && i < |s.lst|
    ensures Ranged(Enabled(s, i, on), lost)
  {
  }

  lemma ActivateKeepsRange(s: State, i: nat, pick: Pick, lost: set<int>)
    requires Ranged(s, lost) && i < |s.lst| && GoodPick(pick)
    ensures var t := Activate(s, i, pick); Ranged(t, lost) && |t.hw| == |s.hw|
  {
    hide Ranged, Disarm, Arm, GoodPick;
    var d := s;
    if |s.lst| > |s.hw| {
      DisarmKeepsRange(s, |s.hw|, lost);
      d := Disarm(s, |s.hw|);
    }
    if !s.lst[i].active { ArmKeepsRange(d, i, pick, lost); }
  }

  lemma SetKeepsRange(s: State, addr: nat, size: nat, pick: Pick, lost: set<int>)
    requires Ranged(s, lost) && GoodPick(pick) && (Find(s.lst, addr, size) < |s.lst| || s.free != [])
    ensures var t := Set(s, addr, size, pick); Ranged(t, lost) && |t.hw| == |s.hw|
  {
    hide GoodPick, Activate, Find, ToFront;
    var i := Find(s.lst, addr, size);
    FindBound(s.lst, addr, size);
    var u := Listed(s, addr, size);
    assert Ranged(u, lost);
    ToFrontAt(u.lst, i);
    var m := u.(lst := ToFront(u.lst, i));
    assert Ranged(m, lost);
    EnabledKeepsRange(m, 0, true, lost);
    ActivateKeepsRange(Enabled(m, 0, true), 0, pick, lost);
  }

  /** The slot of the record that is deleted is vacant for the one that moves up: it is never refused. */
  lemma PromotionNeverRefused(s: State, i: nat, lost: set<int>)
    requires Ranged(s, lost) && i < |s.lst| && s.lst[i].active
    ensures HasVacancy(Unlisted(s, i).hw) && Ranged(Unlisted(s, i), lost)
  {
    WithoutAt(s.lst, i);
    var hw := Unlisted(s, i).hw;
    assert hw[s.lst[i].hwId] == Vacant;
  }

  lemma UnlistedKeepsRange(s: State, i: nat, lost: set<int>)
    requires Ranged(s, lost) && i < |s.lst|
    ensures Ranged(Unlisted(s, i), lost) && |Unlisted(s, i).hw| == |s.hw| && |Unlisted(s, i).lst| == |s.lst| - 1
  {
    hide Without;
    WithoutAt(s.lst, i);
  }

  lemma DeleteKeepsRange(s: State, i: nat, pick: Pick, lost: set<int>)
    requires Ranged(s, lost) && i < |s.lst| && |s.hw| >= 1 && GoodPick(pick)
    ensures var t := Delete(s, i, pick); Ranged(t, lost) && |t.hw| == |s.hw|
  {
    hide Ranged, GoodPick, HasVacancy, Unlisted, Arm;
    UnlistedKeepsRange(s, i, lost);
    if s.lst[i].active {
      PromotionNeverRefused(s, i, lost);
      var t := Unlisted(s, i);
      if |t.lst| >= |t.hw| && t.lst[|t.hw| - 1].enabled { ArmKeepsRange(t, |t.hw| - 1, pick, lost); }
    }
  }

  lemma {:induction false} EnableFromKeepsRange(s: State, i: nat, pick: Pick, lost: set<int>)
    requires Ranged(s, lost) && i <= |s.lst| && GoodPick(pick)
    ensures var t := EnableFrom(s, i, pick); Ranged(t, lost) && |t.hw| == |s.hw|
    decreases |s.lst| - i
  {
    hide Ranged, GoodPick, Arm, EnableStops;
    if i < |s.lst| {
      ArmKeepsRange(s, i, pick, lost);
      EnabledKeepsRange(s, i, true, lost);
      EnabledKeepsRange(Arm(s, i, pick), i, true, lost);
      if !EnableStops(s, i) { EnableFromKeepsRange(EnableStep(s, i, pick), i + 1, pick, lost); }
    }
  }

  lemma {:induction false} RunFromKeepsRange(s: State, i: nat, pick: Pick, lost: set<int>)
    requires Ranged(s, lost) && i <= Window(s) && GoodPick(pick)
    ensures var t := RunFrom(s, i, pick); Ranged(t, lost) && |t.hw| == |s.hw|
    decreases |s.lst| - i
  {
    hide Ranged, GoodPick, Arm, RunStops;
    if i < Window(s) {
      ArmKeepsRange(s, i, pick, lost);
      if !RunStops(s, i) { RunFromKeepsRange(RunStep(s, i, pick), i + 1, pick, lost); }
    }
  }

  lemma {:induction false} DisableFromKeepsRange(s: State, i: nat, lost: set<int>)
    requires Ranged(s, lost) && i <= |s.lst|
    ensures var t := DisableFrom(s, i); Ranged(t, lost) && |t.hw| == |s.hw|
    decreases |s.lst| - i
  {
    hide Ranged, Retire;
    if i < |s.lst| {
      DisarmKeepsRange(s, i, lost);
      EnabledKeepsRange(Retire(s, i), i, false, lost);
      DisableFromKeepsRange(SwitchOff(s, i), i + 1, lost);
    }
  }

  lemma {:induction false} HaltFromKeepsRange(s: State, i: nat, lost: set<int>)
    requires Ranged(s, lost) && i <= Window(s)
    ensures var t := HaltFrom(s, i); Ranged(t, lost) && |t.hw| == |s.hw|
    decreases |s.lst| - i
  {
    hide Ranged, Retire;
    if i < Window(s) {
      DisarmKeepsRange(s, i, lost);
      HaltFromKeepsRange(Retire(s, i), i + 1, lost);
    }
  }

  lemma OpKeepsRange(s: State, op: Op, lost: set<int>)
    requires Ranged(s, lost) && |s.hw| >= 1 && GoodOp(op) && Callable(s, op)
    ensures Ranged(Apply(s, op), lost) && |Apply(s, op).hw| == |s.hw|
  {
    hide Ranged, GoodPick, Activate, Disarm, Set, Delete, EnableFrom, RunFrom, DisableFrom, HaltFrom;
    match op
    case SetAt(addr, size, pick) => SetKeepsRange(s, addr, size, pick, lost);
    case ClearAt(addr, size, pick) =>
      var i := Find(s.lst, addr, size);
      if i < |s.lst| { DeleteKeepsRange(s, i, pick, lost); }
    case DeleteRec(id, pick) => DeleteKeepsRange(s, FindRec(s.lst, id), pick, lost);
    case EnableAt(addr, size, pick) =>
      var i := Find(s.lst, addr, size);
      if i < |s.lst| {
        EnabledKeepsRange(s, i, true, lost);
        ActivateKeepsRange(Enabled(s, i, true), i, pick, lost);
      }
    case DisableAt(addr, size) =>
      var i := Find(s.lst, addr, size);
      if i < |s.lst| {
        DisarmKeepsRange(s, i, lost);
        EnabledKeepsRange(Disarm(s, i), i, false, lost);
      }
    case EnableAll(pick) => EnableFromKeepsRange(s, 0, pick, lost);
    case DisableAll => DisableFromKeepsRange(s, 0, lost);
    case Go(pick) => RunFromKeepsRange(s, 0, pick, lost);
    case Halted => HaltFromKeepsRange(s, 0, lost);
  }

  /** The slot is loaded, and no record holds it. */
  predicate Lost(s: State, k: int) {
    0 <= k < |s.hw| && s.hw[k] != Vacant && !Held(s.lst, k)
  }

  /** Slots that are lost stay lost, whatever is called. */
  lemma {:induction false} LostForever(s: State, lost: set<int>, ops: seq<Op>)
    requires Ranged(s, lost) && |s.hw| >= 1 && Possible(s, ops)
    ensures var t := Final(s, ops);
      Ranged(t, lost) && |t.hw| == |s.hw| && forall k :: k in lost ==> Lost(t, k)
    decreases |ops|
  {
    if ops != [] {
      OpKeepsRange(s, ops[0], lost);
      LostForever(Apply(s, ops[0]), lost, ops[1..]);
    }
  }

  // ---- when the slots stay accounted for

  lemma ActivateKeepsLinked(s: State, i: nat, pick: Pick)
    requires Linked(s.lst, s.hw) && i < |s.lst| && GoodPick(pick)
    ensures Linked(Activate(s, i, pick).lst, Activate(s, i, pick).hw)
  {
    hide Linked, GoodPick;
    if !s.lst[i].active {
      var d := s;
      if |s.lst| > |s.hw| {
        DisarmKeepsLinked(s, |s.hw|);
        d := Disarm(s, |s.hw|);
      }
      ArmKeepsLinked(d, i, pick);
    }
  }

  lemma SetKeepsLinked(s: State, addr: nat, size: nat, pick: Pick)
    requires Linked(s.lst, s.hw) && GoodPick(pick) && (Find(s.lst, addr, size) < |s.lst| || s.free != [])
    ensures Linked(Set(s, addr, size, pick).lst, Set(s, addr, size, pick).hw)
  {
    hide Linked, GoodPick, Activate, ToFront;
    var i := Find(s.lst, addr, size);
    if i == |s.lst| { AppendKeepsLinked(s.lst, s.hw, Rec(s.free[0], addr, size, false, false, -1)); }
    var u := Listed(s, addr, size);
    ToFrontKeepsLinked(u.lst, u.hw, i);
    ToFrontAt(u.lst, i);
    var m := u.(lst := ToFront(u.lst, i));
    EnabledKeepsLinked(m, 0, true);
    ActivateKeepsLinked(Enabled(m, 0, true), 0, pick);
  }

  lemma EnableStepKeepsLinked(s: State, i: nat, pick: Pick)
    requires Linked(s.lst, s.hw) && i < |s.lst| && GoodPick(pick)
    ensures Linked(EnableStep(s, i, pick).lst, EnableStep(s, i, pick).hw)
    ensures Linked(RunStep(s, i, pick).lst, RunStep(s, i, pick).hw)
  {
    hide Linked, GoodPick;
    EnabledKeepsLinked(s, i, true);
    if !s.lst[i].active {
      ArmKeepsLinked(s, i, pick);
      EnabledKeepsLinked(Arm(s, i, pick), i, true);
    }
  }

  lemma {:induction false} EnableFromKeepsLinked(s: State, i: nat, pick: Pick)
    requires Linked(s.lst, s.hw) && i <= |s.lst| && GoodPick(pick)
    ensures Linked(EnableFrom(s, i, pick).lst, EnableFrom(s, i, pick).hw)
    decreases |s.lst| - i
  {
    hide Linked, GoodPick, EnableStops;
    if i < |s.lst| && !EnableStops(s, i) {
      EnableStepKeepsLinked(s, i, pick);
      EnableFromKeepsLinked(EnableStep(s, i, pick), i + 1, pick);
    }
  }

  lemma {:induction false} RunFromKeepsLinked(s: State, i: nat, pick: Pick)
    requires Linked(s.lst, s.hw) && i <= Window(s) && GoodPick(pick)
    ensures Linked(RunFrom(s, i, pick).lst, RunFrom(s, i, pick).hw)
    decreases |s.lst| - i
  {
    hide Linked, GoodPick, RunStops;
    if i < Window(s) && !RunStops(s, i) {
      EnableStepKeepsLinked(s, i, pick);
      RunFromKeepsLinked(RunStep(s, i, pick), i + 1, pick);
    }
  }

  lemma {:induction false} DisableFromKeepsLinked(s: State, i: nat)
    requires Linked(s.lst, s.hw) && i <= |s.lst|
    ensures Linked(DisableFrom(s, i).lst, DisableFrom(s, i).hw)
    decreases |s.lst| - i
  {
    hide Linked;
    if i < |s.lst| {
      RetireKeepsLinked(s, i);
      EnabledKeepsLinked(Retire(s, i), i, false);
      DisableFromKeepsLinked(SwitchOff(s, i), i + 1);
    }
  }

  lemma {:induction false} HaltFromKeepsLinked(s: State, i: nat)
    requires Linked(s.lst, s.hw) && i <= Window(s)
    ensures Linked(HaltFrom(s, i).lst, HaltFrom(s, i).hw)
    decreases |s.lst| - i
  {
    hide Linked;
    if i < Window(s) {
      RetireKeepsLinked(s, i);
      HaltFromKeepsLinked(Retire(s, i), i + 1);
    }
  }

  /** The record that moves up into the window is armed already: `dbg_bp_delete` does not look. */
  predicate PromotesArmed(s: State, i: nat)
    requires i < |s.lst| && |s.hw| >= 1
  {
    var t := Unlisted(s, i);
    s.lst[i].active && |t.lst| >= |t.hw| && t.lst[|t.hw| - 1].enabled && t.lst[|t.hw| - 1].active
  }

  lemma UnlistedKeepsLinked(s: State, i: nat)
    requires Linked(s.lst, s.hw) && i < |s.lst|
    ensures Linked(Unlisted(s, i).lst, Unlisted(s, i).hw) && |Unlisted(s, i).hw| == |s.hw|
  {
    hide Linked, Without;
    WithoutKeepsLinked(s.lst, s.hw, i);
  }

  lemma LinkedIsRanged(s: State)
    requires Linked(s.lst, s.hw)
    ensures Ranged(s, {})
  {
  }

  /** Armed a second time: the slot it had is loaded still, and no record holds it. */
  lemma ArmedTwice(t: State, i: nat, pick: Pick)
    requires Linked(t.lst, t.hw) && i < |t.lst| && t.lst[i].active && HasVacancy(t.hw) && GoodPick(pick)
    ensures Ranged(Arm(t, i, pick), {t.lst[i].hwId}) && Lost(Arm(t, i, pick), t.lst[i].hwId)
  {
    hide GoodPick, HasVacancy;
    VacantPick(t.hw, pick);
  }

  lemma LostIsNotLinked(s: State, k: int)
    requires Lost(s, k)
    ensures !Linked(s.lst, s.hw)
  {
  }

  /** Deleting keeps the slots accounted for exactly if it does not promote a record that is armed already;
      if it does, the slot that this record had is lost. */
  lemma DeleteKeepsLinked(s: State, i: nat, pick: Pick)
    requires Linked(s.lst, s.hw) && i < |s.lst| && |s.hw| >= 1 && GoodPick(pick)
    ensures Linked(Delete(s, i, pick).lst, Delete(s, i, pick).hw) <==> !PromotesArmed(s, i)
    ensures PromotesArmed(s, i) ==> Ranged(Delete(s, i, pick), {Unlisted(s, i).lst[|s.hw| - 1].hwId})
  {
    hide Linked, Ranged, Lost, GoodPick, HasVacancy, Unlisted, Arm;
    var t := Unlisted(s, i);
    UnlistedKeepsLinked(s, i);
    if s.lst[i].active {
      LinkedIsRanged(s);
      PromotionNeverRefused(s, i, {});
      if |t.lst| >= |t.hw| && t.lst[|t.hw| - 1].enabled {
        var p := |t.hw| - 1;
        if t.lst[p].active {
          ArmedTwice(t, p, pick);
          LostIsNotLinked(Arm(t, p, pick), t.lst[p].hwId);
        } else {
          ArmKeepsLinked(t, p, pick);
        }
      }
    }
  }

  /** The call deletes a record and promotes one that is armed already. */
  predicate LosesSlot(s: State, op: Op)
    requires Callable(s, op) && |s.hw| >= 1
  {
    match op
    case ClearAt(addr, size, _) => Find(s.lst, addr, size) < |s.lst| && PromotesArmed(s, Find(s.lst, addr, size))
    case DeleteRec(id, _) => PromotesArmed(s, FindRec(s.lst, id))
    case _ => false
  }

  /** Every call keeps active records and loaded slots in step exactly if it does not promote a record that
      is armed already; enabling behind the window does no harm to this. */
  lemma OpKeepsLinked(s: State, op: Op)
    requires Linked(s.lst, s.hw) && |s.hw| >= 1 && GoodOp(op) && Callable(s, op)
    ensures Linked(Apply(s, op).lst, Apply(s, op).hw) <==> !LosesSlot(s, op)
  {
    hide Linked, GoodPick, Activate, Disarm, Set, Delete, EnableFrom, RunFrom, DisableFrom, HaltFrom, PromotesArmed;
    match op
    case SetAt(addr, size, pick) => SetKeepsLinked(s, addr, size, pick);
    case ClearAt(addr, size, pick) =>
      var i := Find(s.lst, addr, size);
      if i < |s.lst| { DeleteKeepsLinked(s, i, pick); }
    case DeleteRec(id, pick) => DeleteKeepsLinked(s, FindRec(s.lst, id), pick);
    case EnableAt(addr, size, pick) =>
      var i := Find(s.lst, addr, size);
      if i < |s.lst| {
        EnabledKeepsLinked(s, i, true);
        ActivateKeepsLinked(Enabled(s, i, true), i, pick);
      }
    case DisableAt(addr, size) =>
      var i := Find(s.lst, addr, size);
      if i < |s.lst| {
        DisarmKeepsLinked(s, i);
        DisarmSize(s, i);
        EnabledKeepsLinked(Disarm(s, i), i, false);
      }
    case EnableAll(pick) => EnableFromKeepsLinked(s, 0, pick);
    case DisableAll => DisableFromKeepsLinked(s, 0);
    case Go(pick) => RunFromKeepsLinked(s, 0, pick);
    case Halted => HaltFromKeepsLinked(s, 0);
  }

  lemma DisarmSize(s: State, i: nat)
    requires i < |s.lst|
    ensures |Disarm(s, i).lst| == |s.lst|
  {
  }

  /** With the slots straight no record behind the window is armed. */
  lemma StraightLosesNothing(s: State, op: Op)
    requires SlotInv(s) && Callable(s, op)
    ensures !LosesSlot(s, op)
  {
    hide Linked;
    if op.ClearAt? && Find(s.lst, op.addr, op.size) < |s.lst| { WithoutAt(s.lst, Find(s.lst, op.addr, op.size)); }
    if op.DeleteRec? { WithoutAt(s.lst, FindRec(s.lst, op.id)); }
  }

  /** From start-up on, whatever is called, the target takes every record that is promoted. */
  lemma PromotedIsArmed(bpMax: nat, ops: seq<Op>, i: nat)
    requires bpMax >= 1 && Possible(Initial(bpMax), ops)
    ensures var s := Final(Initial(bpMax), ops);
      i < |s.lst| && s.lst[i].active ==> HasVacancy(Unlisted(s, i).hw)
  {
    LostForever(Initial(bpMax), {}, ops);
    var s := Final(Initial(bpMax), ops);
    if i < |s.lst| && s.lst[i].active { PromotionNeverRefused(s, i, {}); }
  }

  /** No call of the run promotes a record that is armed already. */
  ghost predicate NeverLosesSlot(s: State, ops: seq<Op>)
    requires Possible(s, ops)
    decreases |ops|
  {
    ops == [] || (!LosesSlot(s, ops[0]) && NeverLosesSlot(Apply(s, ops[0]), ops[1..]))
  }

  /** As long as the slots are straight nothing is lost: the condition on enables is enough. */
  lemma {:induction false} StraightRunLosesNothing(s: State, ops: seq<Op>)
    requires PoolInv(s) && SlotInv(s) && Possible(s, ops) && EnablesInWindow(s, ops)
    ensures NeverLosesSlot(s, ops)
    decreases |ops|
  {
    hide PoolInv, SlotInv, Apply, GoodOp, LosesSlot, EnablesBehindWindow;
    if ops != [] {
      StraightLosesNothing(s, ops[0]);
      OpKeepsInv(s, ops[0]);
      StraightRunLosesNothing(Apply(s, ops[0]), ops[1..]);
    }
  }

  lemma LosingOp(s: State, op: Op) returns (k: int)
    requires Linked(s.lst, s.hw) && |s.hw| >= 1 && GoodOp(op) && Callable(s, op) && LosesSlot(s, op)
    ensures Ranged(Apply(s, op), {k}) && |Apply(s, op).hw| == |s.hw|
  {
    hide Linked, GoodPick, Delete, PromotesArmed, Unlisted, Ranged;
    var i := if op.ClearAt? then Find(s.lst, op.addr, op.size) else FindRec(s.lst, op.id);
    UnlistedKeepsLinked(s, i);
    UnlistedSize(s, i);
    EnoughListed(s, i);
    DeleteKeepsLinked(s, i, op.pick);
    DeleteEffect(s, i, op.pick);
    k := Unlisted(s, i).lst[|s.hw| - 1].hwId;
  }

  lemma EnoughListed(s: State, i: nat)
    requires i < |s.lst| && |s.hw| >= 1 && PromotesArmed(s, i)
    ensures |Unlisted(s, i).lst| >= |Unlisted(s, i).hw| == |s.hw|
  {
  }

  /** After any run, active records and loaded slots are in step exactly if no call has promoted a record that
      was armed already: one that does so loses a slot, and no later call gets it back. */
  lemma {:induction false} SlotsAccountedForExactly(s: State, ops: seq<Op>)
    requires Linked(s.lst, s.hw) && |s.hw| >= 1 && Possible(s, ops)
    ensures Linked(Final(s, ops).lst, Final(s, ops).hw) <==> NeverLosesSlot(s, ops)
    decreases |ops|
  {
    hide Linked, LosesSlot, Apply, Ranged, Lost, GoodOp;
    if ops != [] {
      var t := Apply(s, ops[0]);
      OpKeepsLinked(s, ops[0]);
      if LosesSlot(s, ops[0]) {
        var k := LosingOp(s, ops[0]);
        LostForever(t, {k}, ops[1..]);
        assert k in {k};
        LostIsNotLinked(Final(s, ops), k);
      } else {
        LinkedIsRanged(s);
        OpKeepsRange(s, ops[0], {});
        SlotsAccountedForExactly(t, ops[1..]);
      }
    }
  }

  /** The halt looks at the window only. With active records and loaded slots in step it empties the slots
      exactly if no record behind the window is active. */
  lemma HaltEmptiesExactly(s: State)
    requires Linked(s.lst, s.hw)
    ensures var t := HaltFrom(s, 0);
      (forall k :: 0 <= k < |t.hw| ==> t.hw[k] == Vacant) <==> ActiveWithin(s.lst, |s.hw|)
  {
    hide Linked;
    HaltFromSpec(s, 0);
    HaltFromKeepsLinked(s, 0);
    var t := HaltFrom(s, 0);
    VacantIfNoneActive(t);
    if !ActiveWithin(s.lst, |s.hw|) {
      var j :| |s.hw| <= j < |s.lst| && s.lst[j].active;
      assert t.lst[j].active;
    }
  }

  // ---- a run that loses a slot

  lemma FindAt(lst: seq<Rec>, addr: nat, size: nat, i: nat)
    requires i < |lst| && Same(lst[i], addr, size) && forall j :: 0 <= j < i ==> !Same(lst[j], addr, size)
    ensures Find(lst, addr, size) == i
  {
  }

  lemma {:induction false} OneMoreOp(s: State, ops: seq<Op>, op: Op)
    requires Possible(s, ops) && |Final(s, ops).hw| >= 1 && GoodOp(op) && Callable(Final(s, ops), op)
    ensures Possible(s, ops + [op]) && Final(s, ops + [op]) == Apply(Final(s, ops), op)
    decreases |ops|
  {
    hide GoodOp, Callable, Apply;
    if ops == [] {
      assert [] + [op] == [op] && [op][1..] == [];
    } else {
      OneMoreOp(Apply(s, ops[0]), ops[1..], op);
      assert (ops + [op])[0] == ops[0] && (ops + [op])[1..] == ops[1..] + [op];
    }
  }

  /** A new breakpoint set in a run with straight slots. */
  lemma OneMoreSet(s0: State, ops: seq<Op>, addr: nat, size: nat, pick: Pick) returns (more: seq<Op>, t: State)
    requires Possible(s0, ops) && SlotInv(Final(s0, ops)) && GoodPick(pick)
    requires Final(s0, ops).free != [] && Unknown(Final(s0, ops).lst, addr, size)
    ensures var s := Final(s0, ops);
      && Possible(s0, more) && Final(s0, more) == t
      && t == Set(s, addr, size, pick) && SlotInv(t) && |t.hw| == |s.hw| && t.free == s.free[1..]
      && |t.lst| == |s.lst| + 1 && Same(t.lst[0], addr, size) && t.lst[0].active
      && forall j :: 0 <= j < |s.lst| ==> SameRecord(t.lst[j + 1], s.lst[j])
  {
    hide SlotInv, Set, Find, GoodPick;
    var s := Final(s0, ops);
    SlotsThere(s);
    t := SetUnknown(s, addr, size, pick);
    var op := SetAt(addr, size, pick);
    OneMoreOp(s0, ops, op);
    more := ops + [op];
  }

  /** Three breakpoints on two slots: the two set last are armed. */
  lemma ThreeOnTwoSlots(a: nat, b: nat, c: nat, size: nat, pick: Pick) returns (ops: seq<Op>, s: State)
    requires GoodPick(pick) && a != b && b != c && c != a
    ensures Possible(Initial(2), ops) && s == Final(Initial(2), ops)
    ensures SlotInv(s) && |s.hw| == 2 && |s.lst| == 3
    ensures Same(s.lst[0], c, size) && Same(s.lst[1], b, size) && Same(s.lst[2], a, size)
    ensures s.lst[0].active && s.lst[1].active && !s.lst[2].active
  {
    hide Set, Find, GoodPick, SlotInv;
    var s0 := Initial(2);
    InitialInv(2);
    var ops1, s1 := OneMoreSet(s0, [], a, size, pick);
    var ops2, s2 := OneMoreSet(s0, ops1, b, size, pick);
    assert SameRecord(s2.lst[0 + 1], s1.lst[0]);
    ops, s := OneMoreSet(s0, ops2, c, size, pick);
    assert SameRecord(s.lst[0 + 1], s2.lst[0]) && SameRecord(s.lst[1 + 1], s2.lst[1]);
    SecondStaysArmed(s2, c, size, pick);
    SlotsThere(s);
  }

  lemma SecondStaysArmed(s: State, addr: nat, size: nat, pick: Pick)
    requires SlotInv(s) && GoodPick(pick) && s.free != [] && Unknown(s.lst, addr, size)
    requires |s.lst| == 2 == |s.hw| && s.lst[0].active
    ensures |Set(s, addr, size, pick).lst| == 3 && Set(s, addr, size, pick).lst[1].active
  {
    hide SlotInv, Set, GoodPick, Find, ToFront;
    NotFound(s.lst, addr, size);
    SetEffect(s, addr, size, pick);
    NewToFront(s, addr, size);
    assert ToFront(New(s, addr, size).lst, 2)[0 + 1] == s.lst[0];
  }

  /** The second is switched off, and the third, behind the window, is switched on in its stead. */
  lemma SwitchedBehindWindow(s: State, pick: Pick) returns (t: State)
    requires SlotInv(s) && GoodPick(pick) && |s.hw| == 2 && |s.lst| == 3
    requires s.lst[0].active && s.lst[1].active && !s.lst[2].active
    ensures t == Enable(Disable(s, 1), 2, pick) && SameRecords(s.lst, t.lst) && |t.hw| == 2
    ensures Linked(t.lst, t.hw) && t.lst[0].active && t.lst[2].active && t.lst[2].enabled
  {
    hide Linked, GoodPick, HasVacancy;
    DisableKeepsSlotInv(s, 1);
    var d := Disable(s, 1);
    IdlePlaceMeansVacancy(d.lst, d.hw, 1);
    EnabledKeepsLinked(d, 2, true);
    ActivateKeepsLinked(Enabled(d, 2, true), 2, pick);
    VacantPick(d.hw, pick);
    t := Enable(d, 2, pick);
  }

  /** Whatever is called from here on, the slot is lost. */
  ghost predicate LostFrom(s: State, k: int) {
    forall ops :: Possible(s, ops) ==> Lost(Final(s, ops), k)
  }

  lemma LostFromHere(s: State, k: int)
    requires Ranged(s, {k}) && |s.hw| >= 1
    ensures LostFrom(s, k)
  {
    forall ops | Possible(s, ops)
      ensures Lost(Final(s, ops), k)
    {
      LostForever(s, {k}, ops);
      assert k in {k};
    }
  }

  lemma PromotesThird(s: State)
    requires |s.hw| == 2 && |s.lst| == 3 && s.lst[0].active && s.lst[2].active && s.lst[2].enabled
    ensures PromotesArmed(s, 0)
  {
    WithoutAt(s.lst, 0);
  }

  lemma SwitchedInRun(a: nat, b: nat, c: nat, size: nat, pick: Pick) returns (ops: seq<Op>, s: State)
    requires GoodPick(pick) && a != b && b != c && c != a
    ensures Possible(Initial(2), ops) && s == Final(Initial(2), ops) && |s.hw| == 2 && |s.lst| == 3
    ensures Linked(s.lst, s.hw) && Find(s.lst, c, size) == 0 && PromotesArmed(s, 0) && s.lst[2].active
  {
    hide SlotInv, Linked, GoodPick, Enable, Disable, Find, Possible, Final, PromotesArmed;
    var s0 := Initial(2);
    var ops3, s3 := ThreeOnTwoSlots(a, b, c, size, pick);
    FindAt(s3.lst, b, size, 1);
    OneMoreOp(s0, ops3, DisableAt(b, size));
    var ops4 := ops3 + [DisableAt(b, size)];
    var s4 := Disable(s3, 1);
    s := SwitchedBehindWindow(s3, pick);
    DisableAlike(s3, 1);
    assert SameRecord(s3.lst[0], s4.lst[0]) && SameRecord(s3.lst[1], s4.lst[1]) && SameRecord(s3.lst[2], s4.lst[2]);
    FindAt(s4.lst, a, size, 2);
    OneMoreOp(s0, ops4, EnableAt(a, size, pick));
    ops := ops4 + [EnableAt(a, size, pick)];
    assert SameRecord(s3.lst[0], s.lst[0]);
    FindAt(s.lst, c, size, 0);
    PromotesThird(s);
  }

  lemma DisableAlike(s: State, i: nat)
    requires i < |s.lst|
    ensures SameRecords(s.lst, Disable(s, i).lst) && |Disable(s, i).hw| == |s.hw|
  {
  }

  /** From start-up on two slots: set a, b and c, disable b, enable a. Clearing c now arms a a second time, and
      the slot that a had before is lost for good, whatever is called from there on. */
  lemma DeleteLosesSlot(a: nat, b: nat, c: nat, size: nat, pick: Pick) returns (ops: seq<Op>, k: int)
    requires GoodPick(pick) && a != b && b != c && c != a
    ensures Possible(Initial(2), ops) && LostFrom(Final(Initial(2), ops), k)
  {
    hide Linked, GoodPick, Find, Possible, Final, PromotesArmed, Ranged, Delete, Unlisted, LostFrom;
    var ops5, s := SwitchedInRun(a, b, c, size, pick);
    UnlistedKeepsLinked(s, 0);
    UnlistedSize(s, 0);
    DeleteKeepsLinked(s, 0, pick);
    k := Unlisted(s, 0).lst[1].hwId;
    DeleteEffect(s, 0, pick);
    LostFromHere(Delete(s, 0, pick), k);
    OneMoreOp(Initial(2), ops5, ClearAt(c, size, pick));
    ops := ops5 + [ClearAt(c, size, pick)];
  }

  /** From start-up on two slots: set a, b and c, disable b, enable a. A halt then leaves a slot loaded. */
  lemma HaltLeavesSlot(a: nat, b: nat, c: nat, size: nat, pick: Pick) returns (ops: seq<Op>, k: nat)
    requires GoodPick(pick) && a != b && b != c && c != a
    ensures Possible(Initial(2), ops) && |Final(Initial(2), ops).hw| == 2
    ensures var t := HaltFrom(Final(Initial(2), ops), 0); k < |t.hw| && t.hw[k] != Vacant
  {
    hide Linked, GoodPick, Possible, Final, HaltFrom, PromotesArmed;
    var ops5, s := SwitchedInRun(a, b, c, size, pick);
    ops := ops5;
    assert !ActiveWithin(s.lst, 2);
    HaltEmptiesExactly(s);
    HaltFromSpec(s, 0);
    k :| k < |HaltFrom(s, 0).hw| && HaltFrom(s, 0).hw[k] != Vacant;
  }

  // ---------------------------------------------------------------- a breakpoint that is switched off

  /** The breakpoint is not listed, or listed and neither enabled nor armed. */
  predicate Off(s: State, addr: nat, size: nat) {
    forall j :: 0 <= j < |s.lst| && Same(s.lst[j], addr, size) ==> !s.lst[j].enabled && !s.lst[j].active
  }

  /** The call sets or enables it. */
  predicate AsksFor(op: Op, addr: nat, size: nat) {
    op.EnableAll? || ((op.SetAt? || op.EnableAt?) && op.addr == addr && op.size == size)
  }

  /** Letting the target run, in any state, arms enabled records of the window only, and disarms none. */
  lemma {:induction false} RunFromEffect(s: State, i: nat, pick: Pick)
    requires i <= Window(s) && GoodPick(pick)
    ensures var t := RunFrom(s, i, pick);
      && SameRecords(s.lst, t.lst)
      && forall j :: 0 <= j < |s.lst| ==>
           && t.lst[j].enabled == s.lst[j].enabled && (s.lst[j].active ==> t.lst[j].active)
           && (t.lst[j].active ==> s.lst[j].active || (s.lst[j].enabled && i <= j < |s.hw|))
    decreases |s.lst| - i
  {
    hide GoodPick, RunStep, RunStops;
    if i < Window(s) && !RunStops(s, i) {
      RunStepEffect(s, i, pick);
      RunFromEffect(RunStep(s, i, pick), i + 1, pick);
    }
  }

  lemma RunStepEffect(s: State, i: nat, pick: Pick)
    requires i < Window(s) && GoodPick(pick) && !RunStops(s, i)
    ensures var t := RunStep(s, i, pick);
      && OnlyAt(s, t, i) && t.lst[i].enabled == s.lst[i].enabled
      && (t.lst[i].active <==> s.lst[i].active || s.lst[i].enabled)
  {
    hide GoodPick, HasVacancy;
    if HasVacancy(s.hw) { VacantPick(s.hw, pick); }
  }

  lemma SetKeepsOff(s: State, a: nat, z: nat, pick: Pick, addr: nat, size: nat)
    requires Off(s, addr, size) && (a != addr || z != size) && (Find(s.lst, a, z) < |s.lst| || s.free != [])
    ensures Off(Set(s, a, z, pick), addr, size)
  {
    hide GoodPick, HasVacancy, Released, Activate, Set, Find, Loaded, Room, Fronted;
    SetEffect(s, a, z, pick);
    FindBound(s.lst, a, z);
    var u := Listed(s, a, z);
    ToFrontAt(u.lst, Find(s.lst, a, z));
    var m := ToFront(u.lst, Find(s.lst, a, z));
    forall j | 0 <= j < |m| && Same(m[j], addr, size)
      ensures !m[j].enabled && !m[j].active
    {
      assert m[j] == u.lst[Before(Find(s.lst, a, z), j)];
    }
    var t := Set(s, a, z, pick);
    assert forall j :: 0 <= j < |m| ==> SameRecord(m[j], t.lst[j]);
  }

  lemma DeleteKeepsOff(s: State, i: nat, pick: Pick, addr: nat, size: nat)
    requires Off(s, addr, size) && i < |s.lst| && |s.hw| >= 1 && GoodPick(pick)
    ensures Off(Delete(s, i, pick), addr, size)
  {
    hide GoodPick, HasVacancy, Loaded, Unlisted, Delete;
    DeleteEffect(s, i, pick);
    WithoutAt(s.lst, i);
    var t := Delete(s, i, pick);
    assert forall j :: 0 <= j < |t.lst| ==> SameRecord(Without(s.lst, i)[j], t.lst[j]);
  }

  lemma OpKeepsOff(s: State, op: Op, addr: nat, size: nat)
    requires Off(s, addr, size) && |s.hw| >= 1 && GoodOp(op) && Callable(s, op) && !AsksFor(op, addr, size)
    ensures Off(Apply(s, op), addr, size)
  {
    hide GoodPick, HasVacancy, Loaded, Set, Delete, Enable, Disable, RunFrom, DisableFrom, HaltFrom, Released;
    match op
    case SetAt(a, z, pick) => SetKeepsOff(s, a, z, pick, addr, size);
    case ClearAt(a, z, pick) =>
      var i := Find(s.lst, a, z);
      if i < |s.lst| { DeleteKeepsOff(s, i, pick, addr, size); }
    case DeleteRec(id, pick) => DeleteKeepsOff(s, FindRec(s.lst, id), pick, addr, size);
    case EnableAt(a, z, pick) =>
      var i := Find(s.lst, a, z);
      if i < |s.lst| {
        EnableEffect(s, i, pick);
        assert forall j :: 0 <= j < |s.lst| ==> SameRecord(s.lst[j], Enable(s, i, pick).lst[j]);
      }
    case DisableAt(a, z) =>
      var i := Find(s.lst, a, z);
      if i < |s.lst| {
        DisableEffect(s, i);
        assert forall j :: 0 <= j < |s.lst| ==> SameRecord(s.lst[j], Disable(s, i).lst[j]);
      }
    case Go(pick) =>
      RunFromEffect(s, 0, pick);
      assert forall j :: 0 <= j < |s.lst| ==> SameRecord(s.lst[j], RunFrom(s, 0, pick).lst[j]);
    case DisableAll =>
      DisableFromSpec(s, 0);
    case Halted =>
      HaltFromSpec(s, 0);
      assert forall j :: 0 <= j < |s.lst| ==> SameRecord(s.lst[j], HaltFrom(s, 0).lst[j]);
  }

  lemma {:induction false} RunKeepsOff(s: State, ops: seq<Op>, addr: nat, size: nat)
    requires Off(s, addr, size) && Possible(s, ops) && forall k :: 0 <= k < |ops| ==> !AsksFor(ops[k], addr, size)
    ensures Off(Final(s, ops), addr, size)
    decreases |ops|
  {
    hide Off, AsksFor, Apply, GoodOp;
    if ops != [] {
      OpKeepsOff(s, ops[0], addr, size);
      RunKeepsOff(Apply(s, ops[0]), ops[1..], addr, size);
    }
  }

  /** A breakpoint that has been disabled, or cleared, stays neither enabled nor armed over any further calls but
      those that set it, enable it, or enable all; and no slot is loaded with it as long as active records
      and loaded slots are in step. */
  lemma StaysOff(s: State, op: Op, ops: seq<Op>)
    requires PoolInv(s) && (op.DisableAt? || op.ClearAt?) && Possible(s, [op] + ops)
    requires forall k :: 0 <= k < |ops| ==> !AsksFor(ops[k], op.addr, op.size)
    ensures var t := Final(s, [op] + ops);
      Off(t, op.addr, op.size) && (Linked(t.lst, t.hw) ==> Busy(op.addr, op.size) !in t.hw)
  {
    hide PoolInv, Off, AsksFor, GoodOp, Apply, Linked;
    assert ([op] + ops)[1..] == ops && ([op] + ops)[0] == op;
    SwitchedOffOrGone(s, op);
    RunKeepsOff(Apply(s, op), ops, op.addr, op.size);
    var t := Final(s, [op] + ops);
    if Linked(t.lst, t.hw) { NotLoaded(t, op.addr, op.size); }
  }

  lemma NotLoaded(t: State, addr: nat, size: nat)
    requires Linked(t.lst, t.hw) && Off(t, addr, size)
    ensures Busy(addr, size) !in t.hw
  {
    assert forall k :: 0 <= k < |t.hw| && t.hw[k] != Vacant ==> Held(t.lst, k);
  }

  /** No breakpoint is listed twice: the one that is found is the only one. */
  lemma SwitchedOffOrGone(s: State, op: Op)
    requires PoolInv(s) && (op.DisableAt? || op.ClearAt?) && |s.hw| >= 1 && GoodOp(op) && Callable(s, op)
    ensures Off(Apply(s, op), op.addr, op.size)
  {
    hide GoodPick, HasVacancy, Loaded, Unlisted, Delete, Disable;
    var i := Find(s.lst, op.addr, op.size);
    if i < |s.lst| {
      OnlyOne(s, i);
      if op.DisableAt? {
        DisableEffect(s, i);
      } else {
        DeleteEffect(s, i, op.pick);
        WithoutAt(s.lst, i);
        var t := Delete(s, i, op.pick);
        assert forall j :: 0 <= j < |t.lst| ==> SameRecord(Without(s.lst, i)[j], t.lst[j]);
      }
    }
  }

  lemma OnlyOne(s: State, i: nat)
    requires PoolInv(s) && i < |s.lst|
    ensures forall j :: 0 <= j < |s.lst| && Same(s.lst[j], s.lst[i].addr, s.lst[i].size) ==> j == i
  {
  }
}
