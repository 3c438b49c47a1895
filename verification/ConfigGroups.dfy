/** The tree of groups in which the configurations are shown, stored as an array of nodes linked to their parents. */
module ConfigGroups {
  datatype Group = Group(name: string, parent: int, active: bool, children: int)
  datatype Config = Config(name: string, group: int)

  const NAME_LENGTH: nat := 39
  const GROWTH: nat := 10

  /** Only the first group has no parent, and parents come before their children. */
  ghost predicate Forest(gs: seq<Group>) {
    forall g :: 0 <= g < |gs| ==> if g == 0 then gs[g].parent == -1 else 0 <= gs[g].parent < g
  }

  ghost predicate Placed(gs: seq<Group>, cs: seq<Config>) {
    forall k :: 0 <= k < |cs| ==> 0 <= cs[k].group < |gs|
  }

  /** The same names and parents. */
  ghost predicate SameShape(gs: seq<Group>, hs: seq<Group>) {
    |gs| == |hs| && forall g :: 0 <= g < |gs| ==> hs[g].name == gs[g].name && hs[g].parent == gs[g].parent
  }

  /** g is x or one of its ancestors. */
  ghost predicate Above(gs: seq<Group>, g: int, x: int)
    requires Forest(gs) && x < |gs|
    decreases x
  {
    x >= 0 && (g == x || Above(gs, g, gs[x].parent))
  }

  lemma {:induction false} AboveIsSmaller(gs: seq<Group>, g: int, x: int)
    requires Forest(gs) && x < |gs| && Above(gs, g, x)
    ensures g <= x
    decreases x
  {
    if g != x { AboveIsSmaller(gs, g, gs[x].parent); }
  }

  lemma {:induction false} AboveSameShape(gs: seq<Group>, hs: seq<Group>, g: int, x: int)
    requires Forest(gs) && SameShape(gs, hs) && x < |gs|
    ensures Forest(hs) && Above(hs, g, x) == Above(gs, g, x)
    decreases x
  {
    if x >= 0 { AboveSameShape(gs, hs, g, gs[x].parent); }
  }

  function ConfigsIn(cs: seq<Config>, g: int): nat {
    if cs == [] then 0 else ConfigsIn(cs[..|cs| - 1], g) + if cs[|cs| - 1].group == g then 1 else 0
  }

  function GroupsIn(gs: seq<Group>, g: int): nat {
    if gs == [] then 0 else GroupsIn(gs[..|gs| - 1], g) + if gs[|gs| - 1].parent == g then 1 else 0
  }

  /** How many configurations and groups are directly in g. */
  function Children(gs: seq<Group>, cs: seq<Config>, g: int): nat {
    ConfigsIn(cs, g) + GroupsIn(gs, g)
  }

  lemma {:induction false} ConfigCounts(cs: seq<Config>, k: nat, g: int)
    requires k < |cs| && cs[k].group == g
    ensures ConfigsIn(cs, g) >= 1
    ensures forall j :: 0 <= j < |cs| && j != k && cs[j].group == g ==> ConfigsIn(cs, g) >= 2
  {
    var rest := cs[..|cs| - 1];
    if k < |rest| {
      ConfigCounts(rest, k, g);
      assert forall j :: 0 <= j < |rest| ==> rest[j] == cs[j];
    } else {
      forall j | 0 <= j < |rest| && cs[j].group == g ensures ConfigsIn(cs, g) >= 2 {
        ConfigCounts(rest, j, g);
      }
    }
  }

  lemma {:induction false} GroupCounts(gs: seq<Group>, k: nat, g: int)
    requires k < |gs| && gs[k].parent == g
    ensures GroupsIn(gs, g) >= 1
  {
    if k < |gs| - 1 { GroupCounts(gs[..|gs| - 1], k, g); }
  }

  lemma {:induction false} GroupsSameShape(gs: seq<Group>, hs: seq<Group>, g: int)
    requires SameShape(gs, hs)
    ensures GroupsIn(gs, g) == GroupsIn(hs, g)
  {
    if gs != [] { GroupsSameShape(gs[..|gs| - 1], hs[..|hs| - 1], g); }
  }

  /** A configuration that is alone in a group of its own name, other than the root. */
  ghost predicate Lonely(gs: seq<Group>, cs: seq<Config>, c: Config)
    requires 0 <= c.group < |gs|
  {
    gs[c.group].parent >= 0 && Children(gs, cs, c.group) == 1 && gs[c.group].name == c.name
  }

  /** Where a configuration is shown: a lonely one with its group's parent. */
  ghost function Shown(gs: seq<Group>, cs: seq<Config>, c: Config): Config
    requires 0 <= c.group < |gs|
  {
    if Lonely(gs, cs, c) then c.(group := gs[c.group].parent) else c
  }

  ghost function Squashed(gs: seq<Group>, cs: seq<Config>): seq<Config>
    requires Placed(gs, cs)
  {
    seq(|cs|, k requires 0 <= k < |cs| => Shown(gs, cs, cs[k]))
  }

  lemma SquashedPlaced(gs: seq<Group>, cs: seq<Config>)
    requires Forest(gs) && Placed(gs, cs)
    ensures Placed(gs, Squashed(gs, cs))
  {
    hide Children;
  }

  /** The groups to be displayed: the root and everything between it and a configuration. */
  ghost predicate Needed(gs: seq<Group>, cs: seq<Config>, g: int)
    requires Forest(gs) && Placed(gs, cs)
  {
    g == 0 || exists k :: 0 <= k < |cs| && Above(gs, g, cs[k].group)
  }

  // Repeated scans

  /** Each scan adds configurations and then activates the groups. */
  ghost function AfterScans(gs: seq<Group>, cs: seq<Config>, scans: seq<seq<Config>>): seq<Config>
    requires Forest(gs) && Placed(gs, cs) && forall i :: 0 <= i < |scans| ==> Placed(gs, scans[i])
    decreases |scans|
  {
    if scans == [] then cs
    else
      assert Placed(gs, scans[0]);
      SquashedPlaced(gs, cs + scans[0]);
      AfterScans(gs, Squashed(gs, cs + scans[0]), scans[1..])
  }

  ghost function Homes(cs: seq<Config>, scans: seq<seq<Config>>): seq<Config>
    decreases |scans|
  {
    if scans == [] then cs else Homes(cs + scans[0], scans[1..])
  }

  /** Each configuration is where it was found, or one level up. */
  ghost predicate NearHome(gs: seq<Group>, cs: seq<Config>, homes: seq<Config>)
    requires Placed(gs, homes)
  {
    |cs| == |homes| && forall k :: 0 <= k < |cs| ==>
      cs[k].name == homes[k].name
      && (cs[k].group == homes[k].group || (homes[k].group > 0 && cs[k].group == gs[homes[k].group].parent))
  }

  /** A configuration that has moved up has its old group beside it and is not lonely again. */
  lemma MovedStays(gs: seq<Group>, cs: seq<Config>, k: nat, home: int)
    requires Forest(gs) && Placed(gs, cs) && k < |cs| && 0 < home < |gs| && cs[k].group == gs[home].parent
    ensures Shown(gs, cs, cs[k]) == cs[k]
  {
    ConfigCounts(cs, k, cs[k].group);
    GroupCounts(gs, home, cs[k].group);
  }

  lemma StaysNearHome(gs: seq<Group>, cs: seq<Config>, homes: seq<Config>)
    requires Forest(gs) && Placed(gs, cs) && Placed(gs, homes) && NearHome(gs, cs, homes)
    ensures NearHome(gs, Squashed(gs, cs), homes)
  {
    hide Children;
    forall k | 0 <= k < |cs|
      ensures Shown(gs, cs, cs[k]).name == homes[k].name
              && (Shown(gs, cs, cs[k]).group == homes[k].group
                  || (homes[k].group > 0 && Shown(gs, cs, cs[k]).group == gs[homes[k].group].parent))
    {
      if cs[k].group != homes[k].group {
        MovedStays(gs, cs, k, homes[k].group);
      }
    }
  }

  /** However often the directories are scanned, a configuration moves up at most one level in total. */
  lemma {:induction false} MovesUpOnce(gs: seq<Group>, cs: seq<Config>, homes: seq<Config>, scans: seq<seq<Config>>)
    requires Forest(gs) && Placed(gs, cs) && Placed(gs, homes) && NearHome(gs, cs, homes)
    requires forall i :: 0 <= i < |scans| ==> Placed(gs, scans[i])
    ensures Placed(gs, Homes(homes, scans)) && NearHome(gs, AfterScans(gs, cs, scans), Homes(homes, scans))
    decreases |scans|
  {
    hide Shown;
    if scans != [] {
      var more := cs + scans[0];
      SquashedPlaced(gs, more);
      StaysNearHome(gs, more, homes + scans[0]);
      MovesUpOnce(gs, Squashed(gs, more), homes + scans[0], scans[1..]);
    }
  }

  // The array of groups

  lemma CountOneMore(cs: seq<Config>, k: nat, g: int)
    requires k < |cs|
    ensures ConfigsIn(cs[..k + 1], g) == ConfigsIn(cs[..k], g) + if cs[k].group == g then 1 else 0
  {
    assert cs[..k + 1][..k] == cs[..k];
  }

  lemma GroupOneMore(gs: seq<Group>, k: nat, g: int)
    requires k < |gs|
    ensures GroupsIn(gs[..k + 1], g) == GroupsIn(gs[..k], g) + if gs[k].parent == g then 1 else 0
  {
    assert gs[..k + 1][..k] == gs[..k];
  }

  /** groups[g] has counted the configurations before k and the groups before i. */
  ghost predicate Counted(gs: seq<Group>, now: seq<Group>, cs: seq<Config>, k: nat, i: nat) {
    k <= |cs| && i <= |gs| && SameShape(gs, now)
    && forall g :: 0 <= g < |gs| ==> now[g].children == ConfigsIn(cs[..k], g) + GroupsIn(gs[..i], g)
  }

  lemma CountConfig(gs: seq<Group>, now: seq<Group>, cs: seq<Config>, k: nat)
    requires Counted(gs, now, cs, k, 0) && Placed(gs, cs) && k < |cs|
    ensures var g := cs[k].group;
            Counted(gs, now[g := now[g].(children := now[g].children + 1)], cs, k + 1, 0)
  {
    hide ConfigsIn, GroupsIn;
    forall g ensures ConfigsIn(cs[..k + 1], g) == ConfigsIn(cs[..k], g) + if cs[k].group == g then 1 else 0 {
      CountOneMore(cs, k, g);
    }
  }

  /** Group i is counted with its parent and made inactive. */
  lemma CountGroup(gs: seq<Group>, now: seq<Group>, cs: seq<Config>, i: nat)
    requires Forest(gs) && Counted(gs, now, cs, |cs|, i) && 0 < i < |gs|
    ensures var p := gs[i].parent;
            var more := now[p := now[p].(children := now[p].children + 1)];
            Counted(gs, more[i := more[i].(active := false)], cs, |cs|, i + 1)
  {
    hide ConfigsIn, GroupsIn;
    forall g ensures GroupsIn(gs[..i + 1], g) == GroupsIn(gs[..i], g) + if gs[i].parent == g then 1 else 0 {
      GroupOneMore(gs, i, g);
    }
  }

  lemma CountRoot(gs: seq<Group>, now: seq<Group>, cs: seq<Config>)
    requires Forest(gs) && gs != [] && Counted(gs, now, cs, |cs|, 0)
    ensures Counted(gs, now, cs, |cs|, 1)
  {
    hide ConfigsIn;
    forall g | g >= 0 ensures GroupsIn(gs[..1], g) == GroupsIn(gs[..0], g) {
      GroupOneMore(gs, 0, g);
    }
  }

  /** The configurations before k have been squashed; their old groups have lost one child. */
  ghost predicate Squashing(gs: seq<Group>, now: seq<Group>, cs: seq<Config>, out: seq<Config>, k: nat)
    requires Placed(gs, cs)
  {
    k <= |cs| == |out| && SameShape(gs, now)
    && (forall j :: 0 <= j < |cs| ==> out[j] == if j < k then Shown(gs, cs, cs[j]) else cs[j])
    && (forall j :: k <= j < |cs| ==> now[cs[j].group].children == Children(gs, cs, cs[j].group))
  }

  lemma SquashNext(gs: seq<Group>, now: seq<Group>, cs: seq<Config>, out: seq<Config>, k: nat)
    requires Forest(gs) && Placed(gs, cs) && Squashing(gs, now, cs, out, k) && k < |cs|
    ensures var g := cs[k].group;
            out[k] == cs[k] && now[g].parent == gs[g].parent
            && (now[g].parent >= 0 && now[g].children == 1 && now[g].name == out[k].name <==> Lonely(gs, cs, cs[k]))
    ensures var g := cs[k].group;
            if Lonely(gs, cs, cs[k]) then
              Squashing(gs, now[g := now[g].(children := now[g].children - 1)], cs,
                        out[k := out[k].(group := gs[g].parent)], k + 1)
            else Squashing(gs, now, cs, out, k + 1)
  {
    var g := cs[k].group;
    assert now[g].children == Children(gs, cs, g);
    if Lonely(gs, cs, cs[k]) {
      forall j | k < j < |cs| ensures cs[j].group != g {
        if cs[j].group == g { ConfigCounts(cs, k, g); }
      }
    }
  }

  /** The groups above the configurations before k are active, and those between x0 and x, where x is still to come. */
  ghost predicate Activating(gs: seq<Group>, now: seq<Group>, cs: seq<Config>, k: nat, x0: int, x: int)
    requires Forest(gs)
  {
    k <= |cs| && Placed(gs, cs) && SameShape(gs, now) && x <= x0 < |gs|
    && forall g :: 0 <= g < |gs| ==>
      (now[g].active <==> Needed(gs, cs[..k], g) || (Above(gs, g, x0) && !Above(gs, g, x)))
  }

  lemma ActivateOne(gs: seq<Group>, now: seq<Group>, cs: seq<Config>, k: nat, x0: int, x: int)
    requires Forest(gs) && Activating(gs, now, cs, k, x0, x) && x >= 0 && Above(gs, x, x0)
    ensures var p := now[x].parent;
            -1 <= p < x && Activating(gs, now[x := now[x].(active := true)], cs, k, x0, p) && (p >= 0 ==> Above(gs, p, x0))
  {
    hide Needed;
    var p := gs[x].parent;
    if Above(gs, x, p) { AboveIsSmaller(gs, x, p); }
    AboveTrans(gs, x, x0);
  }

  /** The parent of a group above x0 is above x0. */
  lemma {:induction false} AboveTrans(gs: seq<Group>, x: int, x0: int)
    requires Forest(gs) && 0 <= x < |gs| && x0 < |gs| && Above(gs, x, x0)
    ensures gs[x].parent >= 0 ==> Above(gs, gs[x].parent, x0)
    decreases x0
  {
    if x != x0 {
      AboveTrans(gs, x, gs[x0].parent);
    } else if gs[x].parent >= 0 {
      assert Above(gs, gs[x].parent, gs[x0].parent);
    }
  }

  lemma ActivateNext(gs: seq<Group>, now: seq<Group>, cs: seq<Config>, k: nat)
    requires Forest(gs) && Placed(gs, cs) && k < |cs| && Activating(gs, now, cs, k, cs[k].group, -1)
    ensures Activating(gs, now, cs, k + 1, -1, -1)
  {
    forall g | 0 <= g < |gs| ensures now[g].active <==> Needed(gs, cs[..k + 1], g) {
      NeededNext(gs, cs, k, g);
    }
  }

  lemma NeededNext(gs: seq<Group>, cs: seq<Config>, k: nat, g: int)
    requires Forest(gs) && Placed(gs, cs) && k < |cs|
    ensures Needed(gs, cs[..k + 1], g) <==> Needed(gs, cs[..k], g) || Above(gs, g, cs[k].group)
  {
    hide Above;
    var one, two := cs[..k], cs[..k + 1];
    assert forall j :: 0 <= j < k ==> two[j] == one[j];
    if Above(gs, g, cs[k].group) { assert Above(gs, g, two[k].group); }
    if j :| 0 <= j < |one| && Above(gs, g, one[j].group) { assert Above(gs, g, two[j].group); }
  }

  lemma ActivateStart(gs: seq<Group>, now: seq<Group>, cs: seq<Config>)
    requires Forest(gs) && Placed(gs, cs) && SameShape(gs, now)
    requires forall g :: 0 <= g < |gs| ==> (now[g].active <==> g == 0)
    ensures Activating(gs, now, cs, 0, -1, -1)
  {
  }

  lemma ActivateFrom(gs: seq<Group>, now: seq<Group>, cs: seq<Config>, k: nat, x: int)
    requires Forest(gs) && Activating(gs, now, cs, k, -1, -1) && x < |gs|
    ensures Activating(gs, now, cs, k, x, x)
  {
    hide Needed;
  }

  lemma NeededSameShape(gs: seq<Group>, hs: seq<Group>, cs: seq<Config>, g: int)
    requires Forest(gs) && Forest(hs) && SameShape(gs, hs) && Placed(gs, cs)
    ensures Placed(hs, cs) && Needed(hs, cs, g) == Needed(gs, cs, g)
  {
    hide Above;
    forall k | 0 <= k < |cs| ensures Above(hs, g, cs[k].group) == Above(gs, g, cs[k].group) {
      AboveSameShape(gs, hs, g, cs[k].group);
    }
  }

  lemma ActivateEnds(gs: seq<Group>, now: seq<Group>, cs: seq<Config>)
    requires Forest(gs) && Placed(gs, cs) && Activating(gs, now, cs, |cs|, -1, -1)
    ensures SameShape(gs, now) && forall g :: 0 <= g < |now| ==> (now[g].active <==> Needed(gs, cs, g))
  {
    assert cs[..|cs|] == cs;
  }

  lemma PlacedAt(gs: seq<Group>, cs: seq<Config>, k: nat)
    requires Placed(gs, cs) && k < |cs|
    ensures 0 <= cs[k].group < |gs|
  {
  }

  /** The counters before i are 0. */
  ghost predicate Reset(gs: seq<Group>, now: seq<Group>, i: nat) {
    i <= |gs| && SameShape(gs, now) && forall g :: 0 <= g < i ==> now[g].children == 0
  }

  lemma ResetStart(gs: seq<Group>)
    ensures Reset(gs, gs, 0)
  {
  }

  lemma ResetNext(gs: seq<Group>, now: seq<Group>, i: nat)
    requires Reset(gs, now, i) && i < |gs|
    ensures Reset(gs, now[i := now[i].(children := 0)], i + 1)
  {
  }

  lemma ResetEnds(gs: seq<Group>, now: seq<Group>, cs: seq<Config>)
    requires Reset(gs, now, |gs|)
    ensures Counted(gs, now, cs, 0, 0)
  {
  }

  lemma CountedParent(gs: seq<Group>, now: seq<Group>, cs: seq<Config>, i: nat)
    requires Forest(gs) && Counted(gs, now, cs, |cs|, i) && 0 < i < |gs|
    ensures 0 <= now[i].parent == gs[i].parent < i
  {
  }

  lemma SquashStart(gs: seq<Group>, now: seq<Group>, cs: seq<Config>)
    requires Placed(gs, cs) && Counted(gs, now, cs, |cs|, |gs|)
    ensures Squashing(gs, now, cs, cs, 0)
  {
    assert cs[..|cs|] == cs && gs[..|gs|] == gs;
  }

  lemma SquashEnds(gs: seq<Group>, now: seq<Group>, cs: seq<Config>, out: seq<Config>)
    requires Placed(gs, cs) && Squashing(gs, now, cs, out, |cs|)
    ensures out == Squashed(gs, cs) && SameShape(gs, now)
  {
  }

  lemma ShapeKept(gs: seq<Group>, hs: seq<Group>, cs: seq<Config>)
    requires Forest(gs) && Placed(gs, cs) && SameShape(gs, hs)
    ensures Forest(hs) && Placed(hs, cs) && Squashed(hs, cs) == Squashed(gs, cs)
  {
    hide ConfigsIn;
    forall c: Config | 0 <= c.group < |gs| ensures Shown(hs, cs, c) == Shown(gs, cs, c) {
      GroupsSameShape(gs, hs, c.group);
    }
  }

  class Options {
    var groups: array<Group>
    var numGroups: nat
    var configs: seq<Config>

    ghost predicate Valid()
      reads this, groups
    {
      numGroups <= groups.Length && Forest(groups[..numGroups]) && Placed(groups[..numGroups], configs)
    }

    constructor ()
      ensures Valid() && fresh(groups) && numGroups == 0 && configs == []
    {
      groups := new Group[0];
      numGroups := 0;
      configs := [];
    }

    /** A new group gets the next id, which is greater than its parent's; without `add`, the parent takes its place. */
    method NewConfigGroup(name: string, parent: int, add: bool) returns (id: int)
      requires Valid() && (if numGroups == 0 then parent == -1 else 0 <= parent < numGroups)
      modifies this, groups
      ensures Valid() && configs == old(configs) && (groups == old(groups) || fresh(groups))
      ensures !add ==> id == parent && groups[..numGroups] == old(groups[..numGroups])
      ensures add ==>
        id == old(numGroups) > parent
        && groups[..numGroups]
           == old(groups[..numGroups])
              + [Group(if |name| <= NAME_LENGTH then name else name[..NAME_LENGTH], parent, false, 0)]
    {
      if !add {
        return parent;
      }
      ghost var before := groups[..numGroups];
      if numGroups == groups.Length {
        var kept, n := groups, numGroups;
        groups := new Group[groups.Length + GROWTH](
          i requires 0 <= i reads kept => if i < kept.Length then kept[i] else Group("", -1, false, 0));
        assert groups[..numGroups] == before;
      }
      groups[numGroups] := Group(if |name| <= NAME_LENGTH then name else name[..NAME_LENGTH], parent, false, 0);
      id := numGroups;
      numGroups := numGroups + 1;
      assert groups[..numGroups] == before + [groups[id]];
    }

    ghost function Groups(): seq<Group>
      requires numGroups <= groups.Length
      reads this, groups
    {
      groups[..numGroups]
    }

    method SetChildren(g: nat, children: int)
      requires g < numGroups <= groups.Length
      modifies groups
      ensures Groups() == old(Groups())[g := old(Groups())[g].(children := children)]
    {
      groups[g] := groups[g].(children := children);
    }

    method SetActive(g: nat, active: bool)
      requires g < numGroups <= groups.Length
      modifies groups
      ensures Groups() == old(Groups())[g := old(Groups())[g].(active := active)]
    {
      groups[g] := groups[g].(active := active);
    }

    /** Every group counts the groups and configurations that are directly in it; all but the root are inactive. */
    method CountChildren()
      requires Valid() && numGroups > 0 && groups[0].active
      modifies groups
      ensures Counted(old(Groups()), Groups(), configs, |configs|, numGroups)
      ensures forall g :: 0 <= g < numGroups ==> (groups[g].active <==> g == 0)
    {
      hide Counted, Forest, Placed;
      ghost var gs := Groups();
      ResetStart(gs);
      for i := 0 to numGroups
        invariant Reset(gs, Groups(), i) && groups[0].active
      {
        ResetNext(gs, Groups(), i);
        SetChildren(i, 0);
      }
      ResetEnds(gs, Groups(), configs);
      for k := 0 to |configs|
        invariant Counted(gs, Groups(), configs, k, 0) && groups[0].active
      {
        CountConfig(gs, Groups(), configs, k);
        PlacedAt(gs, configs, k);
        var g := configs[k].group;
        SetChildren(g, groups[g].children + 1);
      }
      CountRoot(gs, Groups(), configs);
      for i := 1 to numGroups
        invariant Counted(gs, Groups(), configs, |configs|, i)
        invariant forall g :: 0 <= g < i ==> (groups[g].active <==> g == 0)
      {
        CountGroup(gs, Groups(), configs, i);
        CountedParent(gs, Groups(), configs, i);
        var p := groups[i].parent;
        SetChildren(p, groups[p].children + 1);
        SetActive(i, false);
      }
    }

    /** A lonely configuration moves to the parent of its group. */
    method SquashConfigs(ghost gs: seq<Group>)
      requires numGroups <= groups.Length && numGroups == |gs| && Forest(gs) && Placed(gs, configs)
      requires Counted(gs, Groups(), configs, |configs|, numGroups)
      modifies `configs, groups
      ensures configs == Squashed(gs, old(configs)) && SameShape(gs, Groups())
      ensures forall g :: 0 <= g < numGroups ==> groups[g].active == old(groups[g].active)
    {
      ghost var cs := configs;
      SquashStart(gs, Groups(), cs);
      hide Squashing, Lonely, Counted, Forest, SameShape;
      for k := 0 to |configs|
        invariant |configs| == |cs| && Squashing(gs, Groups(), cs, configs, k)
        invariant forall g :: 0 <= g < numGroups ==> groups[g].active == old(groups[g].active)
      {
        SquashNext(gs, Groups(), cs, configs, k);
        var g := configs[k].group;
        if groups[g].parent >= 0 && groups[g].children == 1 && groups[g].name == configs[k].name {
          configs := configs[k := configs[k].(group := groups[g].parent)];
          SetChildren(g, groups[g].children - 1);
        }
      }
      SquashEnds(gs, Groups(), cs, configs);
    }

    /** Every group between the root and a configuration becomes active. */
    method ActivateAbove(ghost gs: seq<Group>)
      requires numGroups <= groups.Length && numGroups == |gs| && Forest(gs) && Placed(gs, configs)
      requires SameShape(gs, Groups()) && forall g :: 0 <= g < numGroups ==> (groups[g].active <==> g == 0)
      modifies groups
      ensures SameShape(gs, Groups())
      ensures forall g :: 0 <= g < numGroups ==> (groups[g].active <==> Needed(gs, configs, g))
    {
      hide Activating, Forest, SameShape, Needed;
      ActivateStart(gs, Groups(), configs);
      for k := 0 to |configs|
        invariant Activating(gs, Groups(), configs, k, -1, -1)
      {
        PlacedAt(gs, configs, k);
        var cg := configs[k].group;
        ActivateFrom(gs, Groups(), configs, k, cg);
        while cg >= 0
          invariant -1 <= cg < numGroups && (cg >= 0 ==> Above(gs, cg, configs[k].group))
          invariant Activating(gs, Groups(), configs, k, configs[k].group, cg)
        {
          ActivateOne(gs, Groups(), configs, k, configs[k].group, cg);
          SetActive(cg, true);
          cg := groups[cg].parent;
        }
        ActivateNext(gs, Groups(), configs, k);
      }
      ActivateEnds(gs, Groups(), configs);
    }

    /**
     * Lonely configurations are shown one level up, and exactly the groups that lead from the root to a configuration
     * are active.
     */
    method ActivateConfigGroups()
      requires Valid() && numGroups > 0
      modifies this, groups
      ensures Valid() && numGroups == old(numGroups) && SameShape(old(Groups()), Groups())
      ensures configs == Squashed(old(Groups()), old(configs))
      ensures forall g :: 0 <= g < numGroups ==> (groups[g].active <==> Needed(Groups(), configs, g))
    {
      hide Squashed, Counted, Needed, Children;
      ghost var gs, cs := Groups(), configs;
      SetActive(0, true);
      ghost var hs := Groups();
      ShapeKept(gs, hs, cs);
      CountChildren();
      SquashConfigs(hs);
      SquashedPlaced(hs, cs);
      ActivateAbove(hs);
      ShapeKept(hs, Groups(), configs);
      forall g | 0 <= g < numGroups ensures Needed(Groups(), configs, g) == Needed(hs, configs, g) {
        NeededSameShape(hs, Groups(), configs, g);
      }
    }
  }
}
