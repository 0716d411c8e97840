/**
 The storage device enumerator behind API_dev_enum, with the network layer compiled out.  A device is identified by
 its descriptor's address (`id`), which is the cookie handed to the caller and handed back by it.
 */
module StorageEnum {
  import opened Options

  /** A device; an inactive one has a descriptor but type DEV_TYPE_UNKNOWN. */
  datatype Dev = Dev(id: nat, active: bool)

  /** A storage group.  A group that is not configured has no name and no devices. */
  datatype Group = Group(configured: bool, devs: seq<Option<Dev>>) {
    predicate Valid() { configured || devs == [] }
  }

  // ---------- the specification ----------

  // The first present device from index i on.
  function FirstPresent(devs: seq<Option<Dev>>, i: nat): (k: nat)
    requires i <= |devs|
    ensures i <= k <= |devs| && (k < |devs| ==> devs[k].Some?)
    ensures forall j :: i <= j < k ==> devs[j].None?
    decreases |devs| - i
  {
    if i == |devs| || devs[i].Some? then i else FirstPresent(devs, i + 1)
  }

  // The first device with this address.
  function IndexOf(devs: seq<Option<Dev>>, id: nat, i: nat := 0): (k: nat)
    requires i <= |devs|
    ensures i <= k <= |devs| && (k < |devs| ==> devs[k].Some? && devs[k].value.id == id)
    ensures forall j :: i <= j < k ==> devs[j].Some? ==> devs[j].value.id != id
    decreases |devs| - i
  {
    if i == |devs| || (devs[i].Some? && devs[i].value.id == id) then i else IndexOf(devs, id, i + 1)
  }

  /** How a group is entered: with a NULL cookie, or with the cookie of an inactive device of an earlier group. */
  datatype Mode = Fresh | Foreign

  datatype Place = Place(g: nat, j: nat)

  // The next device at index j or later of group g, or in a later group.
  function NextAt(groups: seq<Group>, g: nat, j: nat): Option<Place>
    requires g < |groups| && j <= |groups[g].devs|
    decreases |groups| - g, 1
  {
    var k := FirstPresent(groups[g].devs, j);
    if k == |groups[g].devs| then Scan(groups, g + 1, Fresh)
    else if groups[g].devs[k].value.active then Some(Place(g, k))
    else Scan(groups, g + 1, Foreign)
  }

  // The next device in group g or later.
  function Scan(groups: seq<Group>, g: nat, m: Mode): Option<Place>
    requires g <= |groups|
    decreases |groups| - g, 2
  {
    if g == |groups| then None
    else if m.Fresh? then NextAt(groups, g, 0)
    else Scan(groups, g + 1, if groups[g].configured then Fresh else Foreign)
  }

  predicate Present(groups: seq<Group>, p: Place) {
    p.g < |groups| && p.j < |groups[p.g].devs| && groups[p.g].devs[p.j].Some?
  }

  function IdAt(groups: seq<Group>, p: Place): nat
    requires Present(groups, p)
  {
    groups[p.g].devs[p.j].value.id
  }

  lemma {:induction false} NextIsLater(groups: seq<Group>, g: nat, j: nat)
    requires g < |groups| && j <= |groups[g].devs|
    ensures NextAt(groups, g, j).Some? ==>
              var p := NextAt(groups, g, j).value;
              Present(groups, p) && groups[p.g].devs[p.j].value.active && (p.g > g || (p.g == g && p.j >= j))
    decreases |groups| - g, 1
  {
    var k := FirstPresent(groups[g].devs, j);
    if k == |groups[g].devs| {
      ScanIsLater(groups, g + 1, Fresh);
    } else if !groups[g].devs[k].value.active {
      ScanIsLater(groups, g + 1, Foreign);
    }
  }

  lemma {:induction false} ScanIsLater(groups: seq<Group>, g: nat, m: Mode)
    requires g <= |groups|
    ensures Scan(groups, g, m).Some? ==>
              var p := Scan(groups, g, m).value;
              Present(groups, p) && groups[p.g].devs[p.j].value.active && p.g >= g
    decreases |groups| - g, 2
  {
    if g < |groups| {
      if m.Fresh? {
        NextIsLater(groups, g, 0);
      } else {
        ScanIsLater(groups, g + 1, if groups[g].configured then Fresh else Foreign);
      }
    }
  }

  // The devices that follow `p`, in the order in which they are enumerated.
  function Following(groups: seq<Group>, p: Option<Place>): seq<nat>
    requires p.Some? ==> Present(groups, p.value)
    decreases if p.None? then 0 else 1, if p.None? then 0 else |groups| - p.value.g,
              if p.None? then 0 else |groups[p.value.g].devs| - p.value.j
  {
    if p.None? then [] else
      NextIsLater(groups, p.value.g, p.value.j + 1);
      [IdAt(groups, p.value)] + Following(groups, NextAt(groups, p.value.g, p.value.j + 1))
  }

  // ---------- what is enumerated, group by group ----------

  // The devices from index j on, up to the first inactive one.
  function ActivePrefix(devs: seq<Option<Dev>>, j: nat): seq<nat>
    requires j <= |devs|
    decreases |devs| - j
  {
    if j == |devs| then []
    else if devs[j].None? then ActivePrefix(devs, j + 1)
    else if devs[j].value.active then [devs[j].value.id] + ActivePrefix(devs, j + 1)
    else []
  }

  // An inactive device stops the group.
  predicate Stops(devs: seq<Option<Dev>>, j: nat) { exists k :: j <= k < |devs| && devs[k].Some? && !devs[k].value.active }

  /** The devices that a whole enumeration reaches: an inactive device ends its group and hides the next configured
      group altogether. */
  function Reached(groups: seq<Group>, g: nat, m: Mode): seq<nat>
    requires g <= |groups|
    decreases |groups| - g
  {
    if g == |groups| then []
    else if m.Fresh? then
      ActivePrefix(groups[g].devs, 0) + Reached(groups, g + 1, if Stops(groups[g].devs, 0) then Foreign else Fresh)
    else Reached(groups, g + 1, if groups[g].configured then Fresh else Foreign)
  }

  lemma {:induction false} PrefixSkipsAbsent(devs: seq<Option<Dev>>, j: nat)
    requires j <= |devs|
    ensures ActivePrefix(devs, j) == ActivePrefix(devs, FirstPresent(devs, j))
    ensures Stops(devs, j) <==> Stops(devs, FirstPresent(devs, j))
    decreases |devs| - j
  {
    if j < |devs| && devs[j].None? {
      PrefixSkipsAbsent(devs, j + 1);
    }
  }

  function After(groups: seq<Group>, g: nat, j: nat): seq<nat>
    requires g < |groups| && j <= |groups[g].devs|
  {
    ActivePrefix(groups[g].devs, j) + Reached(groups, g + 1, if Stops(groups[g].devs, j) then Foreign else Fresh)
  }

  lemma {:induction false} PrefixStep(devs: seq<Option<Dev>>, k: nat)
    requires k < |devs| && devs[k].Some?
    ensures devs[k].value.active ==> (Stops(devs, k) <==> Stops(devs, k + 1))
    ensures !devs[k].value.active ==> Stops(devs, k)
  {
  }

  // An active device in front of what follows it.
  lemma {:induction false} AfterActive(groups: seq<Group>, g: nat, j: nat, k: nat)
    requires g < |groups| && j <= |groups[g].devs| && k == FirstPresent(groups[g].devs, j)
    requires k < |groups[g].devs| && groups[g].devs[k].value.active
    ensures After(groups, g, j) == [groups[g].devs[k].value.id] + After(groups, g, k + 1)
  {
    var devs := groups[g].devs;
    PrefixSkipsAbsent(devs, j);
    PrefixStep(devs, k);
    var rest := Reached(groups, g + 1, if Stops(devs, k) then Foreign else Fresh);
    assert [devs[k].value.id] + (ActivePrefix(devs, k + 1) + rest) == [devs[k].value.id] + ActivePrefix(devs, k + 1) + rest;
  }

  // No further device of the group is enumerated.
  lemma {:induction false} AfterLast(groups: seq<Group>, g: nat, j: nat, k: nat)
    requires g < |groups| && j <= |groups[g].devs| && k == FirstPresent(groups[g].devs, j)
    requires k == |groups[g].devs| || !groups[g].devs[k].value.active
    ensures After(groups, g, j) == Reached(groups, g + 1, if k == |groups[g].devs| then Fresh else Foreign)
  {
    var devs := groups[g].devs;
    PrefixSkipsAbsent(devs, j);
    if k < |devs| { PrefixStep(devs, k); }
    assert ActivePrefix(devs, k) == [] && (Stops(devs, k) <==> k < |devs|);
  }

  lemma {:induction false} FollowingNext(groups: seq<Group>, g: nat, j: nat)
    requires g < |groups| && j <= |groups[g].devs|
    ensures NextAt(groups, g, j).Some? ==> Present(groups, NextAt(groups, g, j).value)
    ensures Following(groups, NextAt(groups, g, j)) == After(groups, g, j)
    decreases |groups| - g, 1, |groups[g].devs| - j
  {
    var devs := groups[g].devs;
    var k := FirstPresent(devs, j);
    NextIsLater(groups, g, j);
    if k < |devs| && devs[k].value.active {
      FollowingNext(groups, g, k + 1);
      AfterActive(groups, g, j, k);
    } else {
      FollowingScan(groups, g + 1, if k == |devs| then Fresh else Foreign);
      AfterLast(groups, g, j, k);
    }
  }

  /** Following the enumerator to its end gives exactly the devices reached. */
  lemma {:induction false} FollowingScan(groups: seq<Group>, g: nat, m: Mode)
    requires g <= |groups|
    ensures Scan(groups, g, m).Some? ==> Present(groups, Scan(groups, g, m).value)
    ensures Following(groups, Scan(groups, g, m)) == Reached(groups, g, m)
    decreases |groups| - g, 2, 0
  {
    if g < |groups| {
      if m.Fresh? {
        FollowingNext(groups, g, 0);
      } else {
        FollowingScan(groups, g + 1, if groups[g].configured then Fresh else Foreign);
      }
    }
  }

  // ---------- completeness ----------

  // All active devices of a group, and of all groups, in order.
  function Active(devs: seq<Option<Dev>>, j: nat): seq<nat>
    requires j <= |devs|
    decreases |devs| - j
  {
    if j == |devs| then []
    else if devs[j].Some? && devs[j].value.active then [devs[j].value.id] + Active(devs, j + 1)
    else Active(devs, j + 1)
  }

  function AllActive(groups: seq<Group>, g: nat): seq<nat>
    requires g <= |groups|
    decreases |groups| - g
  {
    if g == |groups| then [] else Active(groups[g].devs, 0) + AllActive(groups, g + 1)
  }

  // No active device comes after an inactive one.
  predicate ActiveFirst(devs: seq<Option<Dev>>, j: nat) {
    forall k, l :: j <= k < l < |devs| && devs[k].Some? && devs[l].Some? && devs[l].value.active ==> devs[k].value.active
  }

  predicate NoneActive(devs: seq<Option<Dev>>, j: nat) {
    forall k :: j <= k < |devs| && devs[k].Some? ==> !devs[k].value.active
  }

  /** No active device is behind an inactive one of its group or in a group that an inactive device hides. */
  predicate NothingHidden(groups: seq<Group>, g: nat, m: Mode)
    requires g <= |groups|
    decreases |groups| - g
  {
    g == |groups| ||
    (if m.Fresh? then
       ActiveFirst(groups[g].devs, 0) && NothingHidden(groups, g + 1, if Stops(groups[g].devs, 0) then Foreign else Fresh)
     else
       NoneActive(groups[g].devs, 0) && NothingHidden(groups, g + 1, if groups[g].configured then Fresh else Foreign))
  }

  lemma {:induction false} NoneActiveIff(devs: seq<Option<Dev>>, j: nat)
    requires j <= |devs|
    ensures Active(devs, j) == [] <==> NoneActive(devs, j)
    decreases |devs| - j
  {
    if j < |devs| { NoneActiveIff(devs, j + 1); }
  }

  lemma {:induction false} PrefixIff(devs: seq<Option<Dev>>, j: nat)
    requires j <= |devs|
    ensures |ActivePrefix(devs, j)| <= |Active(devs, j)|
    ensures |ActivePrefix(devs, j)| == |Active(devs, j)| <==> ActiveFirst(devs, j)
    ensures ActiveFirst(devs, j) ==> ActivePrefix(devs, j) == Active(devs, j)
    decreases |devs| - j
  {
    if j < |devs| {
      PrefixIff(devs, j + 1);
      if devs[j].Some? && !devs[j].value.active {
        NoneActiveIff(devs, j + 1);
        assert ActiveFirst(devs, j) <==> NoneActive(devs, j + 1);
      } else {
        assert ActiveFirst(devs, j) <==> ActiveFirst(devs, j + 1);
      }
    }
  }

  lemma {:induction false} ReachedIff(groups: seq<Group>, g: nat, m: Mode)
    requires g <= |groups|
    ensures |Reached(groups, g, m)| <= |AllActive(groups, g)|
    ensures |Reached(groups, g, m)| == |AllActive(groups, g)| <==> NothingHidden(groups, g, m)
    ensures NothingHidden(groups, g, m) ==> Reached(groups, g, m) == AllActive(groups, g)
    decreases |groups| - g
  {
    if g < |groups| {
      var devs := groups[g].devs;
      PrefixIff(devs, 0);
      NoneActiveIff(devs, 0);
      ReachedIff(groups, g + 1, if m.Fresh? then (if Stops(devs, 0) then Foreign else Fresh)
                               else if groups[g].configured then Fresh else Foreign);
    }
  }

  /** The enumeration is complete, each active device once and in order, if and only if no device is hidden; in
      particular it is complete when every present device is active. */
  lemma {:induction false} EnumerationComplete(groups: seq<Group>)
    ensures Reached(groups, 0, Fresh) == AllActive(groups, 0) <==> NothingHidden(groups, 0, Fresh)
    ensures (forall g :: 0 <= g < |groups| ==> !Stops(groups[g].devs, 0)) ==> NothingHidden(groups, 0, Fresh)
  {
    ReachedIff(groups, 0, Fresh);
    if forall g :: 0 <= g < |groups| ==> !Stops(groups[g].devs, 0) {
      NothingHiddenWhenActive(groups, 0);
    }
  }

  lemma {:induction false} NothingHiddenWhenActive(groups: seq<Group>, g: nat)
    requires g <= |groups| && forall h :: 0 <= h < |groups| ==> !Stops(groups[h].devs, 0)
    ensures NothingHidden(groups, g, Fresh)
    decreases |groups| - g
  {
    if g < |groups| {
      NothingHiddenWhenActive(groups, g + 1);
    }
  }

  lemma {:induction false} EmptyPrefix(devs: seq<Option<Dev>>, j: nat, k: nat)
    requires j <= k < |devs| && devs[k].Some? && !devs[k].value.active && forall i :: j <= i < k ==> devs[i].None?
    ensures ActivePrefix(devs, j) == [] && Stops(devs, j)
    decreases k - j
  {
    if j < k { EmptyPrefix(devs, j + 1, k); }
  }

  lemma {:induction false} SkipToConfigured(groups: seq<Group>, g: nat, h: nat)
    requires g <= h <= |groups| && forall x :: g <= x < h ==> !groups[x].configured
    ensures Reached(groups, g, Foreign) == Reached(groups, h, Foreign)
    decreases h - g
  {
    if g < h { SkipToConfigured(groups, g + 1, h); }
  }

  /**
   A group whose first present device is inactive is hidden altogether, active devices included, and so is the next
   configured group h; the enumeration goes on behind it, if there is one.
   */
  lemma {:induction false} InactiveHides(groups: seq<Group>, g: nat, k: nat, h: nat)
    requires g < h <= |groups| && k < |groups[g].devs| && forall i :: 0 <= i < k ==> groups[g].devs[i].None?
    requires groups[g].devs[k].Some? && !groups[g].devs[k].value.active
    requires (forall x :: g < x < h ==> !groups[x].configured) && (h < |groups| ==> groups[h].configured)
    ensures Reached(groups, g, Fresh) == if h < |groups| then Reached(groups, h + 1, Fresh) else []
  {
    EmptyPrefix(groups[g].devs, 0, k);
    SkipToConfigured(groups, g + 1, h);
    assert [] + Reached(groups, g + 1, Foreign) == Reached(groups, g + 1, Foreign);
  }

  // ---------- the enumerator of the source ----------

  // Every present device has its own address.
  ghost predicate Distinct(groups: seq<Group>) {
    forall p: Place, q: Place :: Present(groups, p) && Present(groups, q) && IdAt(groups, p) == IdAt(groups, q) ==> p == q
  }

  class Enumerator {
    const groups: seq<Group>
    const started: array<bool>
    const ended: array<bool>
    var cookie: Option<nat>

    constructor (groups: seq<Group>)
      requires Distinct(groups) && forall g :: 0 <= g < |groups| ==> groups[g].Valid()
      ensures Valid() && this.groups == groups && cookie == None && fresh(started) && fresh(ended)
    {
      this.groups, cookie := groups, None;
      started := new bool[|groups|](_ => false);
      ended := new bool[|groups|](_ => false);
    }

    ghost predicate Valid() {
      && Distinct(groups) && started.Length == ended.Length == |groups| && started != ended
      && forall g :: 0 <= g < |groups| ==> groups[g].Valid()
    }

    // Groups before g have been visited, those from g on have not.
    ghost predicate Frontier(g: nat)
      reads started, ended
    {
      && (forall h :: 0 <= h < g && h < started.Length && h < ended.Length ==> started[h] || ended[h])
      && (forall h :: g <= h < started.Length && h < ended.Length ==> !started[h] && !ended[h])
    }

    // The caller holds the cookie of the device at p.
    ghost predicate Holds(p: Place)
      reads this, started, ended
    {
      && Valid() && Present(groups, p) && cookie == Some(IdAt(groups, p))
      && started[p.g] && !ended[p.g] && Frontier(p.g + 1)
    }

    // dev_stor_get.
    method StorGet(g: nat) returns (found: bool, more: bool)
      requires Valid() && g < |groups|
      modifies `cookie
      ensures !groups[g].configured ==> !found && !more && cookie == old(cookie)
      ensures groups[g].configured ==>
                var devs := groups[g].devs;
                var i := if old(cookie).None? then 0 else IndexOf(devs, old(cookie).value);
                var k := FirstPresent(devs, if old(cookie).None? || i == |devs| then i else i + 1);
                && more == (k < |devs|) && found == (k < |devs| && devs[k].value.active)
                && cookie == if k < |devs| then Some(devs[k].value.id) else None
    {
      if !groups[g].configured { return false, false; }
      var devs := groups[g].devs;
      var i := 0;
      if cookie.Some? {
        while i < |devs|
          invariant 0 <= i <= |devs| && IndexOf(devs, cookie.value) == IndexOf(devs, cookie.value, i)
        {
          if devs[i].Some? && devs[i].value.id == cookie.value {
            i := i + 1;
            break;
          }
          i := i + 1;
        }
      }
      ghost var i0 := i;
      found := false;
      while i < |devs|
        invariant i0 <= i <= |devs| && !found && FirstPresent(devs, i0) == FirstPresent(devs, i)
      {
        cookie := if devs[i].Some? then Some(devs[i].value.id) else None;
        if cookie.Some? {
          found := true;
          break;
        }
        i := i + 1;
      }
      more := i < |devs|;
      if found {
        if !devs[i].value.active { found := false; }
      } else {
        cookie := None;
      }
    }

    ghost predicate InGroup(id: nat, g: nat) { exists j :: Present(groups, Place(g, j)) && IdAt(groups, Place(g, j)) == id }

    // dev_stor_type.
    method StorType(id: nat) returns (g: nat)
      ensures g <= |groups| && (g < |groups| ==> InGroup(id, g))
      ensures forall h :: 0 <= h < g ==> !InGroup(id, h)
    {
      g := 0;
      while g < |groups|
        invariant g <= |groups| && forall h :: 0 <= h < g ==> !InGroup(id, h)
      {
        var devs := groups[g].devs;
        for j := 0 to |devs|
          invariant forall k :: 0 <= k < j ==> devs[k].Some? ==> devs[k].value.id != id
        {
          if devs[j].Some? && devs[j].value.id == id {
            assert Present(groups, Place(g, j));
            return;
          }
        }
        g := g + 1;
      }
    }

    // dev_enum_stor with a NULL cookie, or with the cookie of a device of the group.
    method EnumOwn(g: nat, ghost first: nat) returns (found: bool)
      requires Valid() && g < |groups| && first <= |groups[g].devs|
      requires cookie.None? ==> first == 0
      requires cookie.Some? ==> groups[g].configured && IndexOf(groups[g].devs, cookie.value) + 1 == first
      modifies `cookie, started, ended
      ensures var devs := groups[g].devs;
              var k := FirstPresent(devs, first);
              && found == (k < |devs| && devs[k].value.active)
              && cookie == (if k < |devs| then Some(devs[k].value.id) else None)
              && ended[g] == !(k < |devs|) && (old(cookie).None? ==> started[g])
      ensures old(cookie).Some? ==> started[g] == old(started[g])
      ensures forall h :: 0 <= h < |groups| && h != g ==> started[h] == old(started[h]) && ended[h] == old(ended[h])
    {
      var c := cookie;
      var more: bool;
      found, more := StorGet(g);
      if c.None? { started[g] := true; }
      ended[g] := !more;
    }

    // dev_enum_stor with the cookie of a device of another group.
    method EnumForeign(g: nat) returns (found: bool)
      requires Valid() && g < |groups| && cookie.Some? && !InGroup(cookie.value, g)
      modifies `cookie, started, ended
      ensures !found && (started[g] || ended[g])
      ensures cookie == if !old(started[g]) && !old(ended[g]) && groups[g].configured then None else old(cookie)
      ensures old(started[g]) ==> started[g]
      ensures forall h :: 0 <= h < |groups| && h != g ==> started[h] == old(started[h]) && ended[h] == old(ended[h])
    {
      if ended[g] { return false; }
      var more := false;
      if !started[g] {
        started[g] := true;
        ghost var devs := groups[g].devs;
        assert IndexOf(devs, cookie.value) == |devs| by {
          if IndexOf(devs, cookie.value) < |devs| {
            assert Present(groups, Place(g, IndexOf(devs, cookie.value)));
          }
        }
        found, more := StorGet(g);
      } else {
        found, more := false, false;
      }
      ended[g] := !more;
    }

    // Where the group is entered: at its start, or behind the device of the cookie.
    ghost predicate Entry(g: nat, first: nat)
      reads this
    {
      g < |groups| && first <= |groups[g].devs| &&
      if cookie.None? then first == 0
      else 0 < first && Present(groups, Place(g, first - 1)) && IdAt(groups, Place(g, first - 1)) == cookie.value
    }

    lemma {:induction false} EntryIndex(g: nat, first: nat)
      requires Valid() && Entry(g, first) && cookie.Some?
      ensures IndexOf(groups[g].devs, cookie.value) == first - 1 && groups[g].configured && InGroup(cookie.value, g)
      ensures forall h :: 0 <= h < |groups| && h != g ==> !InGroup(cookie.value, h)
    {
      var k := IndexOf(groups[g].devs, cookie.value);
      assert k <= first - 1;
      assert Present(groups, Place(g, k)) && Place(g, k) == Place(g, first - 1);
    }

    /** dev_enum_stor: a group entered by its own cookie or a NULL cookie gives its next device, if that is active; any
        other cookie gives nothing, and is cleared when a configured group is visited for the first time. */
    method EnumStor(g: nat, ghost first: nat) returns (found: bool)
      requires Valid() && g < |groups|
      requires Entry(g, first) || (cookie.Some? && !InGroup(cookie.value, g))
      requires Entry(g, first) && cookie.Some? ==> !ended[g]
      modifies `cookie, started, ended
      ensures old(Entry(g, first)) ==>
                var devs := groups[g].devs;
                var k := FirstPresent(devs, first);
                && found == (k < |devs| && devs[k].value.active)
                && cookie == (if k < |devs| then Some(devs[k].value.id) else None)
                && ended[g] == !(k < |devs|) && (old(cookie).None? || old(started[g]) ==> started[g])
      ensures !old(Entry(g, first)) ==>
                && !found && (started[g] || ended[g]) && (old(started[g]) ==> started[g])
                && cookie == if !old(started[g]) && !old(ended[g]) && groups[g].configured then None else old(cookie)
      ensures forall h :: 0 <= h < |groups| && h != g ==> started[h] == old(started[h]) && ended[h] == old(ended[h])
    {
      if cookie.None? {
        found := EnumOwn(g, 0);
      } else {
        var t := StorType(cookie.value);
        if t == g {
          assert InGroup(cookie.value, g);
          if ended[g] { return false; }
          EntryIndex(g, first);
          found := EnumOwn(g, first);
        } else {
          assert !Entry(g, first) by {
            if Entry(g, first) { EntryIndex(g, first); }
          }
          found := EnumForeign(g);
        }
      }
    }

    // The cookie of an inactive device of a group before g.
    ghost predicate Stale(g: nat)
      reads this
    {
      cookie.Some? && exists p: Place :: Present(groups, p) && p.g < g && IdAt(groups, p) == cookie.value
    }

    // Groups before g are done; what is left to find is `goal`.
    ghost predicate Between(g: nat, goal: Option<Place>)
      reads this, started, ended
    {
      && Valid() && g <= |groups| && Frontier(g)
      && ((cookie.None? && goal == Scan(groups, g, Fresh)) || (Stale(g) && goal == Scan(groups, g, Foreign)))
    }

    lemma {:induction false} StaleIsForeign(g: nat)
      requires Valid() && g < |groups| && Stale(g)
      ensures !InGroup(cookie.value, g)
    {
    }

    // What the next call has to find.
    ghost function Goal(at: Option<Place>): Option<Place>
      requires at.Some? ==> Present(groups, at.value)
    {
      if at.None? then Scan(groups, 0, Fresh) else NextAt(groups, at.value.g, at.value.j + 1)
    }

    // In front of group g of the loop: still before the group of the cookie, or past it.
    ghost predicate Progress(g: nat, at: Option<Place>, goal: Option<Place>)
      reads this, started, ended
    {
      if at.Some? && g <= at.value.g then Holds(at.value) && goal == NextAt(groups, at.value.g, at.value.j + 1)
      else Between(g, goal)
    }

    // The loop body of dev_enum_storage.
    method EnumGroup(g: nat, ghost at: Option<Place>, ghost goal: Option<Place>) returns (found: bool)
      requires Progress(g, at, goal) && g < |groups|
      modifies `cookie, started, ended
      ensures found ==> goal.Some? && Holds(goal.value)
      ensures !found ==> Progress(g + 1, at, goal)
    {
      ghost var own := at.Some? && g == at.value.g;
      ghost var early := at.Some? && g < at.value.g;
      ghost var first := if own then at.value.j + 1 else 0;
      ghost var devs := groups[g].devs;
      ghost var k := FirstPresent(devs, first);
      ghost var nul := cookie.None?;
      if early || (!own && !nul) {
        if !early { StaleIsForeign(g); }
        assert !InGroup(cookie.value, g);
        assert !Entry(g, first);
      } else {
        assert own ==> Place(g, first - 1) == at.value;
        assert Entry(g, first);
      }
      label before:
      found := EnumStor(g, first);
      if own || (!early && nul) {
        assert old@before(Entry(g, first));
        assert found == (k < |devs| && devs[k].value.active);
        if k < |devs| {
          assert Present(groups, Place(g, k)) && cookie == Some(IdAt(groups, Place(g, k)));
        }
        assert goal == NextAt(groups, g, first) && Frontier(g + 1);
        assert if found then Holds(Place(g, k)) else Between(g + 1, goal);
      } else {
        assert Progress(g + 1, at, goal);
      }
    }

    /** API_dev_enum: from the device at `at`, or from the start with a NULL cookie, moves to the next device of the
        specification, or to a NULL cookie when there is none. */
    method ApiDevEnum(ghost at: Option<Place>)
      requires Valid() && (if at.None? then cookie.None? else Holds(at.value))
      modifies `cookie, started, ended
      ensures Valid() && if Goal(at).None? then cookie.None? else Holds(Goal(at).value)
    {
      if cookie.None? {
        Reset();
      }
      var g := 0;
      while g < |groups|
        invariant 0 <= g <= |groups| && Progress(g, at, Goal(at))
      {
        var found := EnumGroup(g, at, Goal(at));
        if found { return; }
        g := g + 1;
      }
      cookie := None;
    }

    // A caller that goes on from the device it holds until it gets a NULL cookie.
    method EnumerateRest(ghost at: Option<Place>) returns (seen: seq<nat>)
      requires Valid() && (if at.None? then cookie.None? else Holds(at.value))
      modifies `cookie, started, ended
      ensures cookie.None? && (at.Some? ==> Present(groups, at.value)) && seen == Following(groups, at)
      decreases at.Some?, if at.None? then 0 else |groups| - at.value.g,
                if at.None? then 0 else |groups[at.value.g].devs| - at.value.j
    {
      if cookie.None? { return []; }
      var x := cookie.value;
      NextIsLater(groups, at.value.g, at.value.j + 1);
      ApiDevEnum(at);
      var rest := EnumerateRest(Goal(at));
      seen := [x] + rest;
    }

    /** A caller that enumerates from a NULL cookie until it gets one back sees exactly the devices reached. */
    method EnumerateAll() returns (seen: seq<nat>)
      requires Valid() && cookie.None?
      modifies `cookie, started, ended
      ensures seen == Reached(groups, 0, Fresh) && cookie.None?
    {
      ApiDevEnum(None);
      FollowingScan(groups, 0, Fresh);
      seen := EnumerateRest(Scan(groups, 0, Fresh));
    }

    // dev_enum_reset.
    method Reset()
      requires Valid()
      modifies started, ended
      ensures Frontier(0)
    {
      for g := 0 to |groups|
        invariant forall h :: 0 <= h < g ==> !started[h] && !ended[h]
      {
        started[g], ended[g] := false, false;
      }
    }
  }
}
