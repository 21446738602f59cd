/** The browser's groups, panes and active pane, together with every pane object ever made:
    a closed pane's sockets and timers may still call back. */
module BrowserWorkspace {
  import opened Wrappers
  import BP = BrowserPane

  type PaneId = nat
  type GroupId = nat

  const MAX_PANES: nat := 4

  datatype Direction = Right | Down

  datatype Group = Group(panes: seq<PaneId>, direction: Direction)

  datatype Object = Object(groupId: GroupId, pane: BP.Pane)

  /** `order` is the insertion order of the `groups` map. */
  datatype Workspace = Workspace(
    groups: map<GroupId, Group>, order: seq<GroupId>,
    objects: map<PaneId, Object>, sessions: set<PaneId>,
    activeId: Option<PaneId>, activeGroupId: Option<GroupId>, serial: nat)

  datatype Event =
    | CreateSession
    | SplitActive(direction: Direction)
    | ClosePane(id: PaneId)
    | CloseOtherPanes(id: PaneId)
    | RemoveGroup(group: GroupId)
    | Logout
    | ActivatePane(id: PaneId)
    | ActivateGroup(group: GroupId)
    | CyclePane(forward: bool)
    | AtPane(id: PaneId, event: BP.Event)

  function Empty(): Workspace { Workspace(map[], [], map[], {}, None, None, 0) }

  function Without(s: seq<nat>, x: nat): seq<nat> {
    if s == [] then []
    else Without(s[..|s| - 1], x) + (if s[|s| - 1] == x then [] else [s[|s| - 1]])
  }

  function IndexOf(s: seq<nat>, x: nat): int {
    if s == [] then -1
    else if s[0] == x then 0
    else var i := IndexOf(s[1..], x); if i < 0 then -1 else i + 1
  }

  function DoActivatePane(w: Workspace, id: PaneId): Workspace {
    if id in w.sessions && id in w.objects then
      w.(activeId := Some(id), activeGroupId := Some(w.objects[id].groupId))
    else w
  }

  /** A group without panes would make the original fail; it never has one to offer here. */
  function DoActivateGroup(w: Workspace, gid: GroupId): Workspace {
    if gid !in w.groups || w.groups[gid].panes == [] then w
    else
      var panes := w.groups[gid].panes;
      DoActivatePane(w, if w.activeId.Some? && w.activeId.value in panes then w.activeId.value else panes[0])
  }

  function DoCreatePane(w: Workspace, gid: GroupId): (Workspace, Option<PaneId>) {
    if gid !in w.groups || |w.groups[gid].panes| >= MAX_PANES then (w, None)
    else
      var id := w.serial + 1;
      var g := w.groups[gid];
      (w.(serial := id, sessions := w.sessions + {id}, objects := w.objects[id := Object(gid, BP.NewPane())],
          groups := w.groups[gid := g.(panes := g.panes + [id])]), Some(id))
  }

  function OpenGroup(w: Workspace): Workspace {
    var gid := w.serial + 1;
    w.(serial := gid, groups := w.groups[gid := Group([], Right)], order := w.order + [gid])
  }

  function CreateActive(w: Workspace, gid: GroupId): Workspace {
    var (w', id) := DoCreatePane(w, gid);
    if id.Some? then DoActivatePane(w', id.value) else w'
  }

  function DoCreateSession(w: Workspace): Workspace { CreateActive(OpenGroup(w), w.serial + 1) }

  function DoSplitActive(w: Workspace, direction: Direction): Workspace {
    if w.activeGroupId.None? || w.activeGroupId.value !in w.groups then w
    else
      var gid := w.activeGroupId.value;
      var g := w.groups[gid];
      if |g.panes| >= MAX_PANES then w
      else
        var w1 := if |g.panes| == 1 then w.(groups := w.groups[gid := g.(direction := direction)]) else w;
        CreateActive(w1, gid)
  }

  function DisposePane(w: Workspace, id: PaneId): Workspace {
    if id !in w.objects then w
    else
      w.(objects := w.objects[id := w.objects[id].(pane := BP.Step(w.objects[id].pane, BP.Disposed))],
         sessions := w.sessions - {id})
  }

  function DisposeAll(w: Workspace, ids: seq<PaneId>): Workspace {
    if ids == [] then w else DisposePane(DisposeAll(w, ids[..|ids| - 1]), ids[|ids| - 1])
  }

  /** The workspace with a group's panes disposed and the group gone. */
  function Dropped(w: Workspace, gid: GroupId): Workspace
    requires gid in w.groups
  {
    var w1 := DisposeAll(w, w.groups[gid].panes);
    w1.(groups := w1.groups - {gid}, order := Without(w1.order, gid))
  }

  /** Activating whatever group comes first, or nothing when none is left. */
  function ActivateFirst(w: Workspace): Workspace {
    if w.order != [] then DoActivateGroup(w, w.order[0]) else w.(activeId := None, activeGroupId := None)
  }

  function DoRemoveGroup(w: Workspace, gid: GroupId): Workspace {
    if gid !in w.groups then w
    else
      var w1 := Dropped(w, gid);
      if w1.activeGroupId != Some(gid) then w1 else ActivateFirst(w1)
  }

  /** The workspace with a pane disposed and out of its group, which may be hollow now. */
  function TakenOut(w: Workspace, id: PaneId): Workspace
    requires id in w.objects && w.objects[id].groupId in w.groups
  {
    var gid := w.objects[id].groupId;
    var w1 := DisposePane(w, id);
    w1.(groups := w1.groups[gid := w1.groups[gid].(panes := Without(w1.groups[gid].panes, id))])
  }

  function DoRemoveSession(w: Workspace, id: PaneId): Workspace {
    if id !in w.sessions || id !in w.objects then w
    else if w.objects[id].groupId !in w.groups then DisposePane(w, id)
    else
      var gid := w.objects[id].groupId;
      var w1 := TakenOut(w, id);
      if w1.groups[gid].panes == [] then DoRemoveGroup(w1, gid) else DoActivatePane(w1, w1.groups[gid].panes[0])
  }

  function RemoveSessions(w: Workspace, ids: seq<PaneId>): Workspace {
    if ids == [] then w else DoRemoveSession(RemoveSessions(w, ids[..|ids| - 1]), ids[|ids| - 1])
  }

  function RemoveGroups(w: Workspace, gids: seq<GroupId>): Workspace {
    if gids == [] then w else DoRemoveGroup(RemoveGroups(w, gids[..|gids| - 1]), gids[|gids| - 1])
  }

  /** The menu may still be open for a pane that is gone; then every pane of its group goes. */
  function DoCloseOthers(w: Workspace, id: PaneId): Workspace {
    if id !in w.objects || w.objects[id].groupId !in w.groups then w
    else DoActivatePane(RemoveSessions(w, Without(w.groups[w.objects[id].groupId].panes, id)), id)
  }

  function DoClosePane(w: Workspace, id: PaneId): Workspace {
    if id in w.objects && w.objects[id].groupId in w.groups && |w.groups[w.objects[id].groupId].panes| > 1 then
      DoRemoveSession(w, id)
    else w
  }

  function DoCyclePane(w: Workspace, forward: bool): Workspace {
    if w.activeGroupId.None? || w.activeGroupId.value !in w.groups || w.activeId.None? then w
    else
      var panes := w.groups[w.activeGroupId.value].panes;
      var idx := IndexOf(panes, w.activeId.value);
      if |panes| < 2 || idx < 0 then w
      else
        var next := (idx + (if forward then 1 else -1) + |panes|) % |panes|;
        DoActivatePane(w, panes[next])
  }

  function DoAtPane(w: Workspace, id: PaneId, e: BP.Event): Workspace {
    if id in w.objects && !e.Disposed? then
      w.(objects := w.objects[id := w.objects[id].(pane := BP.Step(w.objects[id].pane, e))])
    else w
  }

  function Step(w: Workspace, e: Event): Workspace {
    match e
    case CreateSession => DoCreateSession(w)
    case SplitActive(direction) => DoSplitActive(w, direction)
    case ClosePane(id) => DoClosePane(w, id)
    case CloseOtherPanes(id) => DoCloseOthers(w, id)
    case RemoveGroup(gid) => DoRemoveGroup(w, gid)
    case Logout => RemoveGroups(w, w.order)
    case ActivatePane(id) => DoActivatePane(w, id)
    case ActivateGroup(gid) => DoActivateGroup(w, gid)
    case CyclePane(forward) => DoCyclePane(w, forward)
    case AtPane(id, event) => DoAtPane(w, id, event)
  }

  function Run(w: Workspace, es: seq<Event>): Workspace {
    if es == [] then w else Step(Run(w, es[..|es| - 1]), es[|es| - 1])
  }

  // ---- The invariant ----

  ghost predicate Distinct(s: seq<nat>) {
    forall i, j :: 0 <= i < j < |s| ==> s[i] != s[j]
  }

  /** The panes of a group are exactly the sessions that name it. */
  ghost predicate GroupInv(w: Workspace, gid: GroupId)
    requires gid in w.groups
  {
    var panes := w.groups[gid].panes;
    && |panes| <= MAX_PANES && Distinct(panes) && gid <= w.serial
    && forall id :: id in panes <==> id in w.sessions && id in w.objects && w.objects[id].groupId == gid
  }

  ghost predicate ObjectInv(w: Workspace, id: PaneId)
    requires id in w.objects
  {
    && id <= w.serial
    && BP.PaneInv(w.objects[id].pane)
    && (w.objects[id].pane.live <==> id in w.sessions)
    && (id in w.sessions ==> w.objects[id].groupId in w.groups)
  }

  /** All of the structure; the groups in `hollow` may be without panes for the moment. */
  ghost predicate Structure(w: Workspace, hollow: set<GroupId>) {
    && Distinct(w.order) && (forall gid :: gid in w.order <==> gid in w.groups)
    && w.sessions <= w.objects.Keys
    && (forall gid :: gid in w.groups ==> GroupInv(w, gid))
    && (forall gid :: gid in w.groups && gid !in hollow ==> w.groups[gid].panes != [])
    && (forall id :: id in w.objects ==> ObjectInv(w, id))
  }

  /** Both active ids are null and no group exists, or the active pane is in the active group. */
  ghost predicate ActiveInv(w: Workspace) {
    if w.activeId.None? || w.activeGroupId.None? then
      w.activeId.None? && w.activeGroupId.None? && w.groups == map[]
    else
      && w.activeGroupId.value in w.groups
      && w.activeId.value in w.groups[w.activeGroupId.value].panes
  }

  ghost predicate Inv(w: Workspace) { Structure(w, {}) && ActiveInv(w) }

  // ---- Lists without one element ----

  lemma {:induction false} WithoutIs(s: seq<nat>, x: nat)
    requires Distinct(s)
    ensures Distinct(Without(s, x)) && |Without(s, x)| <= |s|
    ensures forall y :: y in Without(s, x) <==> y in s && y != x
    ensures if x in s then |Without(s, x)| == |s| - 1 else Without(s, x) == s
  {
    if s != [] {
      var init, last := s[..|s| - 1], s[|s| - 1];
      WithoutIs(init, x);
      assert s == init + [last];
      assert last !in init;
    }
  }

  lemma {:induction false} IndexOfIs(s: seq<nat>, x: nat)
    ensures x !in s ==> IndexOf(s, x) == -1
    ensures x in s ==> 0 <= IndexOf(s, x) < |s| && s[IndexOf(s, x)] == x
  {
    if s != [] && s[0] != x {
      IndexOfIs(s[1..], x);
      assert s == [s[0]] + s[1..];
    }
  }

  // ---- Each operation keeps it ----

  lemma ActivateKeeps(w: Workspace, id: PaneId, hollow: set<GroupId>)
    requires Structure(w, hollow)
    ensures Structure(DoActivatePane(w, id), hollow)
    ensures id in w.sessions || ActiveInv(w) ==> ActiveInv(DoActivatePane(w, id))
  {
    var w' := DoActivatePane(w, id);
    StructureOnly(w, w', hollow);
    if id in w.sessions { assert ObjectInv(w, id); assert GroupInv(w, w.objects[id].groupId); }
  }

  /** The structure does not depend on which pane is active. */
  lemma StructureOnly(w: Workspace, w': Workspace, hollow: set<GroupId>)
    requires Structure(w, hollow) && w' == w.(activeId := w'.activeId, activeGroupId := w'.activeGroupId)
    ensures Structure(w', hollow)
  {
  }

  lemma ActivateGroupKeeps(w: Workspace, gid: GroupId)
    requires Structure(w, {})
    ensures Structure(DoActivateGroup(w, gid), {})
    ensures gid in w.groups || ActiveInv(w) ==> ActiveInv(DoActivateGroup(w, gid))
  {
    if gid in w.groups {
      assert GroupInv(w, gid);
      var panes := w.groups[gid].panes;
      var id := if w.activeId.Some? && w.activeId.value in panes then w.activeId.value else panes[0];
      assert id in panes;
      ActivateKeeps(w, id, {});
    }
  }

  lemma CreatePaneKeeps(w: Workspace, gid: GroupId)
    requires Structure(w, {gid}) && gid in w.groups && |w.groups[gid].panes| < MAX_PANES
    ensures var (w', id) := DoCreatePane(w, gid);
            && id.Some? && id.value in w'.sessions && Structure(w', {})
            && w'.groups.Keys == w.groups.Keys && w'.activeId == w.activeId && w'.activeGroupId == w.activeGroupId
  {
    var (w', id') := DoCreatePane(w, gid);
    var id := id'.value;
    forall x | x in w.objects ensures x < id { assert ObjectInv(w, x); }
    BP.NewPaneInv();
    forall x | x in w'.objects ensures ObjectInv(w', x) {
      if x != id { assert ObjectInv(w, x); }
    }
    forall g | g in w'.groups ensures GroupInv(w', g) {
      assert GroupInv(w, g);
      assert id !in w.groups[g].panes;
    }
  }

  /** No group and no session has the next number yet. */
  lemma NextIsFresh(w: Workspace)
    requires Structure(w, {})
    ensures w.serial + 1 !in w.groups && w.serial + 1 !in w.order
    ensures forall id :: id in w.sessions && id in w.objects ==> w.objects[id].groupId != w.serial + 1
  {
    assert w.serial + 1 in w.groups ==> GroupInv(w, w.serial + 1);
    forall id | id in w.sessions && id in w.objects ensures w.objects[id].groupId != w.serial + 1 {
      assert ObjectInv(w, id);
    }
  }

  lemma OpenGroupKeeps(w: Workspace)
    requires Inv(w)
    ensures HasRoom(OpenGroup(w), w.serial + 1)
  {
    var gid, w' := w.serial + 1, OpenGroup(w);
    NextIsFresh(w);
    assert forall i :: 0 <= i < |w.order| ==> w.order[i] in w.order;
    assert forall g :: g in w'.order <==> g in w.order || g == gid;
    forall x | x in w'.objects ensures ObjectInv(w', x) { assert ObjectInv(w, x); }
    forall g | g in w'.groups ensures GroupInv(w', g) { assert g != gid ==> GroupInv(w, g); }
  }

  lemma CreateSessionKeeps(w: Workspace)
    requires Inv(w)
    ensures Inv(DoCreateSession(w))
  {
    OpenGroupKeeps(w);
    CreateActiveKeeps(OpenGroup(w), w.serial + 1);
  }

  /** The group may have another pane; it may be hollow still. */
  ghost predicate HasRoom(w: Workspace, gid: GroupId) {
    Structure(w, {gid}) && gid in w.groups && |w.groups[gid].panes| < MAX_PANES
  }

  lemma CreateActiveKeeps(w: Workspace, gid: GroupId)
    requires HasRoom(w, gid)
    ensures Inv(CreateActive(w, gid))
  {
    CreatePaneKeeps(w, gid);
    var (w', id) := DoCreatePane(w, gid);
    ActivateKeeps(w', id.value, {});
  }

  lemma DirectionKeeps(w: Workspace, gid: GroupId, direction: Direction)
    requires Structure(w, {}) && gid in w.groups
    ensures Structure(w.(groups := w.groups[gid := w.groups[gid].(direction := direction)]), {})
  {
    var w' := w.(groups := w.groups[gid := w.groups[gid].(direction := direction)]);
    forall g | g in w'.groups ensures GroupInv(w', g) { assert GroupInv(w, g); }
    forall id | id in w'.objects ensures ObjectInv(w', id) { assert ObjectInv(w, id); }
  }

  lemma SplitKeeps(w: Workspace, direction: Direction)
    requires Inv(w)
    ensures Inv(DoSplitActive(w, direction))
  {
    if w.activeGroupId.Some? && w.activeGroupId.value in w.groups {
      var gid := w.activeGroupId.value;
      var g := w.groups[gid];
      if |g.panes| < MAX_PANES {
        DirectionKeeps(w, gid, direction);
        var w1 := if |g.panes| == 1 then w.(groups := w.groups[gid := g.(direction := direction)]) else w;
        StructureLoosens(w1, gid);
        CreateActiveKeeps(w1, gid);
      }
    }
  }

  // ---- Removal ----

  /** Disposing a list of panes takes them out of `sessions` and changes no other structure. */
  lemma {:induction false} DisposeAllFrame(w: Workspace, ids: seq<PaneId>)
    ensures var w' := DisposeAll(w, ids);
            && w' == w.(objects := w'.objects, sessions := w'.sessions)
            && w'.objects.Keys == w.objects.Keys
            && (forall id :: id in w'.sessions <==> id in w.sessions && !(id in ids && id in w.objects))
  {
    if ids != [] {
      var init, last := ids[..|ids| - 1], ids[|ids| - 1];
      DisposeAllFrame(w, init);
      assert forall id :: id in ids <==> id in init || id == last;
    }
  }

  /** To each pane it is a disposal if the pane is listed, and nothing otherwise. */
  lemma {:induction false} DisposeAllAt(w: Workspace, ids: seq<PaneId>, id: PaneId)
    requires id in w.objects && BP.PaneInv(w.objects[id].pane)
    ensures var objects := DisposeAll(w, ids).objects;
            && id in objects && objects[id].groupId == w.objects[id].groupId
            && objects[id].pane.live == (w.objects[id].pane.live && id !in ids)
            && (id !in ids ==> objects[id] == w.objects[id])
            && BP.PaneInv(objects[id].pane)
  {
    if ids != [] {
      var init, last := ids[..|ids| - 1], ids[|ids| - 1];
      DisposeAllAt(w, init, id);
      assert id in ids <==> id in init || id == last;
      DisposeAllFrame(w, init);
      BP.StepKeeps(DisposeAll(w, init).objects[id].pane, BP.Disposed);
    }
  }

  lemma DroppedIs(w: Workspace, gid: GroupId)
    requires Structure(w, {gid}) && gid in w.groups
    ensures var w' := Dropped(w, gid);
            && w'.groups == w.groups - {gid} && w'.order == Without(w.order, gid)
            && w'.activeId == w.activeId && w'.activeGroupId == w.activeGroupId && w'.serial == w.serial
            && w'.objects.Keys == w.objects.Keys
            && (forall id :: id in w'.sessions <==> id in w.sessions && id !in w.groups[gid].panes)
            && (forall id :: id in w.objects ==> w'.objects[id].groupId == w.objects[id].groupId)
            && (forall id :: id in w.objects ==> w'.objects[id].pane.live == (id in w'.sessions))
            && (forall id :: id in w.objects ==> BP.PaneInv(w'.objects[id].pane))
  {
    var panes := w.groups[gid].panes;
    assert GroupInv(w, gid);
    DisposeAllFrame(w, panes);
    forall id | id in w.objects
      ensures var made := Dropped(w, gid).objects[id];
              && made.groupId == w.objects[id].groupId && BP.PaneInv(made.pane)
              && made.pane.live == (id in w.sessions && id !in panes)
    {
      assert ObjectInv(w, id);
      DisposeAllAt(w, panes, id);
    }
  }

  lemma DroppedKeeps(w: Workspace, gid: GroupId)
    requires Structure(w, {gid}) && gid in w.groups
    ensures Structure(Dropped(w, gid), {})
  {
    DroppedIs(w, gid);
    WithoutIs(w.order, gid);
    var w' := Dropped(w, gid);
    assert GroupInv(w, gid);
    forall id | id in w'.objects ensures ObjectInv(w', id) { assert ObjectInv(w, id); }
    forall g | g in w'.groups ensures GroupInv(w', g) {
      assert GroupInv(w, g);
      forall id | id in w.groups[g].panes ensures id !in w.groups[gid].panes { assert w.objects[id].groupId == g; }
    }
  }

  lemma NoOrderNoGroups(w: Workspace)
    requires Structure(w, {})
    ensures w.order == [] <==> w.groups == map[]
  {
    assert w.order != [] ==> w.order[0] in w.order;
    if g :| g in w.groups { assert g in w.order; }
  }

  lemma ActivateFirstKeeps(w: Workspace)
    requires Structure(w, {})
    ensures Inv(ActivateFirst(w))
    ensures ActivateFirst(w).groups == w.groups && ActivateFirst(w).order == w.order
  {
    NoOrderNoGroups(w);
    if w.order != [] {
      assert w.order[0] in w.order;
      ActivateGroupKeeps(w, w.order[0]);
    } else {
      StructureOnly(w, ActivateFirst(w), {});
    }
  }

  /** Removing a group is safe also when it is empty, and when it was the active one. */
  lemma RemoveGroupKeeps(w: Workspace, gid: GroupId)
    requires Structure(w, {gid}) && gid in w.groups
    requires w.activeGroupId == Some(gid) || ActiveInv(w)
    ensures Inv(DoRemoveGroup(w, gid))
    ensures DoRemoveGroup(w, gid).groups == w.groups - {gid} && DoRemoveGroup(w, gid).order == Without(w.order, gid)
  {
    DroppedFrame(w, gid);
    DroppedKeeps(w, gid);
    var w' := Dropped(w, gid);
    if w'.activeGroupId == Some(gid) { ActivateFirstKeeps(w'); }
  }

  lemma DroppedFrame(w: Workspace, gid: GroupId)
    requires gid in w.groups
    ensures var w' := Dropped(w, gid);
            && w'.groups == w.groups - {gid} && w'.order == Without(w.order, gid)
            && w'.activeId == w.activeId && w'.activeGroupId == w.activeGroupId && w'.serial == w.serial
  {
    DisposeAllFrame(w, w.groups[gid].panes);
  }

  lemma DisposedIs(w: Workspace, id: PaneId)
    requires id in w.objects
    ensures var w' := DisposePane(w, id);
            && w'.groups == w.groups && w'.sessions == w.sessions - {id} && w'.objects.Keys == w.objects.Keys
            && forall x :: x in w.objects ==> w'.objects[x].groupId == w.objects[x].groupId
  {
  }

  lemma TakenOutObject(w: Workspace, id: PaneId, x: PaneId)
    requires id in w.objects && x in w.objects && ObjectInv(w, id) && ObjectInv(w, x)
    requires w.objects[id].groupId in w.groups
    ensures ObjectInv(TakenOut(w, id), x)
  {
    BP.StepKeeps(w.objects[id].pane, BP.Disposed);
  }

  lemma TakenOutGroup(w: Workspace, id: PaneId, gid: GroupId)
    requires id in w.objects && gid in w.groups && w.objects[id].groupId in w.groups && GroupInv(w, gid)
    ensures GroupInv(TakenOut(w, id), gid)
  {
    DisposedIs(w, id);
    WithoutIs(w.groups[gid].panes, id);
  }

  /** Taking one pane out of its group leaves at most that group hollow. */
  lemma TakeOutKeeps(w: Workspace, id: PaneId)
    requires Structure(w, {}) && id in w.sessions
    ensures var gid := w.objects[id].groupId;
            gid in w.groups && id in w.groups[gid].panes && Structure(TakenOut(w, id), {gid})
  {
    assert ObjectInv(w, id);
    assert GroupInv(w, w.objects[id].groupId);
    var w1 := TakenOut(w, id);
    DisposedIs(w, id);
    forall x | x in w1.objects ensures ObjectInv(w1, x) { TakenOutObject(w, id, x); }
    forall g | g in w1.groups ensures GroupInv(w1, g) { TakenOutGroup(w, id, g); }
  }

  /** Removing a session that is the last of its group, and one that is not. */
  lemma RemoveSessionKeeps(w: Workspace, id: PaneId)
    requires Inv(w)
    ensures Inv(DoRemoveSession(w, id))
  {
    if id in w.sessions {
      var gid := w.objects[id].groupId;
      TakeOutKeeps(w, id);
      var w1 := TakenOut(w, id);
      ChangedOneGroup(w, w1, gid);
      if w1.groups[gid].panes == [] { RemoveGroupKeeps(w1, gid); } else { FirstTakesOver(w1, gid); }
    }
  }

  /** A change inside one group cannot hurt the active pane unless that group is active. */
  lemma ChangedOneGroup(w: Workspace, w': Workspace, gid: GroupId)
    requires ActiveInv(w) && gid in w.groups && gid in w'.groups
    requires w'.activeId == w.activeId && w'.activeGroupId == w.activeGroupId
    requires w'.groups == w.groups[gid := w'.groups[gid]]
    ensures w'.activeGroupId == Some(gid) || ActiveInv(w')
  {
  }

  lemma FirstTakesOver(w: Workspace, gid: GroupId)
    requires Structure(w, {gid}) && gid in w.groups && w.groups[gid].panes != []
    ensures Inv(DoActivatePane(w, w.groups[gid].panes[0]))
  {
    assert GroupInv(w, gid);
    assert w.groups[gid].panes[0] in w.groups[gid].panes;
    StructureFull(w, gid);
    ActivateKeeps(w, w.groups[gid].panes[0], {});
  }

  lemma StructureFull(w: Workspace, gid: GroupId)
    requires Structure(w, {gid}) && gid in w.groups && w.groups[gid].panes != []
    ensures Structure(w, {})
  {
  }

  lemma {:induction false} RemoveSessionsKeeps(w: Workspace, ids: seq<PaneId>)
    requires Inv(w)
    ensures Inv(RemoveSessions(w, ids))
  {
    if ids != [] {
      RemoveSessionsKeeps(w, ids[..|ids| - 1]);
      RemoveSessionKeeps(RemoveSessions(w, ids[..|ids| - 1]), ids[|ids| - 1]);
    }
  }

  lemma StructureLoosens(w: Workspace, gid: GroupId)
    requires Structure(w, {})
    ensures Structure(w, {gid})
  {
  }

  lemma {:induction false} RemoveGroupsKeeps(w: Workspace, gids: seq<GroupId>)
    requires Inv(w)
    ensures Inv(RemoveGroups(w, gids))
    ensures forall g :: g in RemoveGroups(w, gids).groups <==> g in w.groups && g !in gids
  {
    if gids != [] {
      var init, last := gids[..|gids| - 1], gids[|gids| - 1];
      RemoveGroupsKeeps(w, init);
      assert gids == init + [last];
      var w1 := RemoveGroups(w, init);
      if last in w1.groups {
        StructureLoosens(w1, last);
        RemoveGroupKeeps(w1, last);
      }
    }
  }

  lemma CycleKeeps(w: Workspace, forward: bool)
    requires Inv(w)
    ensures Inv(DoCyclePane(w, forward))
  {
    if w.activeGroupId.Some? && w.activeId.Some? {
      var panes := w.groups[w.activeGroupId.value].panes;
      var idx := IndexOf(panes, w.activeId.value);
      if |panes| >= 2 && idx >= 0 {
        IndexOfIs(panes, w.activeId.value);
        ActivateKeeps(w, panes[(idx + (if forward then 1 else -1) + |panes|) % |panes|], {});
      }
    }
  }

  lemma AtPaneKeeps(w: Workspace, id: PaneId, e: BP.Event)
    requires Inv(w)
    ensures Inv(DoAtPane(w, id, e))
  {
    if id in w.objects && !e.Disposed? {
      var w' := DoAtPane(w, id, e);
      assert ObjectInv(w, id);
      BP.StepKeeps(w.objects[id].pane, e);
      LiveStays(w.objects[id].pane, e);
      forall x | x in w'.objects ensures ObjectInv(w', x) { assert ObjectInv(w, x); }
      forall g | g in w'.groups ensures GroupInv(w', g) { assert GroupInv(w, g); }
    }
  }

  lemma LiveStays(p: BP.Pane, e: BP.Event)
    requires !e.Disposed?
    ensures BP.Step(p, e).live == p.live
  {
  }

  lemma CloseOthersKeeps(w: Workspace, id: PaneId)
    requires Inv(w)
    ensures Inv(DoCloseOthers(w, id))
  {
    if id in w.objects && w.objects[id].groupId in w.groups {
      var others := Without(w.groups[w.objects[id].groupId].panes, id);
      RemoveSessionsKeeps(w, others);
      ActivateKeeps(RemoveSessions(w, others), id, {});
    }
  }

  lemma StepKeeps(w: Workspace, e: Event)
    requires Inv(w)
    ensures Inv(Step(w, e))
  {
    match e
    case CreateSession => CreateSessionKeeps(w);
    case SplitActive(direction) => SplitKeeps(w, direction);
    case ClosePane(id) => RemoveSessionKeeps(w, id);
    case CloseOtherPanes(id) => CloseOthersKeeps(w, id);
    case RemoveGroup(gid) =>
      if gid in w.groups {
        StructureLoosens(w, gid);
        RemoveGroupKeeps(w, gid);
      }
    case Logout => RemoveGroupsKeeps(w, w.order);
    case ActivatePane(id) => ActivateKeeps(w, id, {});
    case ActivateGroup(gid) => ActivateGroupKeeps(w, gid);
    case CyclePane(forward) => CycleKeeps(w, forward);
    case AtPane(id, event) => AtPaneKeeps(w, id, event);
  }

  lemma {:induction false} Reachable(es: seq<Event>)
    ensures Inv(Run(Empty(), es))
  {
    if es != [] {
      Reachable(es[..|es| - 1]);
      StepKeeps(Run(Empty(), es[..|es| - 1]), es[|es| - 1]);
    }
  }

  // ---- The promises ----

  /** In every reachable workspace: each group has one to four panes, the groups' panes are
      the sessions, each in exactly one place, and the active pane is in the active group
      unless there is neither. */
  lemma WorkspaceInvariant(es: seq<Event>)
    ensures var w := Run(Empty(), es);
            && (forall gid :: gid in w.groups ==> 1 <= |w.groups[gid].panes| <= 4)
            && (forall id :: id in w.sessions <==> exists gid :: gid in w.groups && id in w.groups[gid].panes)
            && (forall g, h :: g in w.groups && h in w.groups && g != h ==>
                  forall id :: id in w.groups[g].panes ==> id !in w.groups[h].panes)
            && (forall gid :: gid in w.groups ==> Distinct(w.groups[gid].panes))
            && (if w.groups == map[] then w.activeId.None? && w.activeGroupId.None?
                else w.activeId.Some? && w.activeGroupId.Some? && w.activeGroupId.value in w.groups
                     && w.activeId.value in w.groups[w.activeGroupId.value].panes)
  {
    Reachable(es);
    var w := Run(Empty(), es);
    forall gid | gid in w.groups ensures 1 <= |w.groups[gid].panes| <= 4 && Distinct(w.groups[gid].panes) {
      assert GroupInv(w, gid);
    }
    forall id ensures id in w.sessions <==> exists gid :: gid in w.groups && id in w.groups[gid].panes {
      if id in w.sessions { assert ObjectInv(w, id); assert GroupInv(w, w.objects[id].groupId); }
      if gid :| gid in w.groups && id in w.groups[gid].panes { assert GroupInv(w, gid); }
    }
    forall g, h | g in w.groups && h in w.groups && g != h
      ensures forall id :: id in w.groups[g].panes ==> id !in w.groups[h].panes
    {
      assert GroupInv(w, g) && GroupInv(w, h);
    }
  }

  /** Whatever sockets and timers a closed pane still has cannot change anything, and every
      live pane obeys the reconnection invariant of its own. */
  lemma ClosedPanesAreSilent(es: seq<Event>, id: PaneId, e: BP.Event)
    ensures var w := Run(Empty(), es);
            id in w.objects ==>
              && BP.PaneInv(w.objects[id].pane)
              && (id !in w.sessions ==>
                    && w.objects[id].pane.socket.None? && w.objects[id].pane.browser.pendingRetries == {}
                    && w.objects[id].pane.browser.pendingPings == {}
                    && Step(w, AtPane(id, e)) == w)
  {
    Reachable(es);
    var w := Run(Empty(), es);
    if id in w.objects {
      assert ObjectInv(w, id);
      if id !in w.sessions { assert w.objects[id := w.objects[id]] == w.objects; }
    }
  }

  /** Going to the next pane and back to the previous one, or the other way round, ends
      where it began. */
  lemma CycleThereAndBack(es: seq<Event>, forward: bool)
    ensures var w := Run(Empty(), es);
            Step(Step(w, CyclePane(forward)), CyclePane(!forward)) == w
  {
    Reachable(es);
    var w := Run(Empty(), es);
    if w.activeGroupId.Some? && |w.groups[w.activeGroupId.value].panes| >= 2 {
      var panes := w.groups[w.activeGroupId.value].panes;
      var i := IndexOf(panes, w.activeId.value);
      CycleIs(w, forward);
      ThereAndBack(i, |panes|, forward);
      IndexOfPane(w, w.activeGroupId.value, Neighbour(i, |panes|, forward));
      CycleKeeps(w, forward);
      CycleIs(DoCyclePane(w, forward), !forward);
    }
  }

  lemma IndexOfPane(w: Workspace, gid: GroupId, i: nat)
    requires Inv(w) && gid in w.groups && i < |w.groups[gid].panes|
    ensures IndexOf(w.groups[gid].panes, w.groups[gid].panes[i]) == i
  {
    assert GroupInv(w, gid);
    IndexOfIs(w.groups[gid].panes, w.groups[gid].panes[i]);
    assert w.groups[gid].panes[i] in w.groups[gid].panes;
  }

  function Neighbour(i: nat, n: nat, forward: bool): nat
    requires i < n && n >= 2
  {
    (i + (if forward then 1 else -1) + n) % n
  }

  lemma ThereAndBack(i: nat, n: nat, forward: bool)
    requires i < n && n >= 2
    ensures Neighbour(i, n, forward) ==
            if forward then (if i + 1 < n then i + 1 else 0) else (if i > 0 then i - 1 else n - 1)
    ensures Neighbour(Neighbour(i, n, forward), n, !forward) == i
  {
    ModOnce(i + 1 + n, n);
    ModOnce(i - 1 + n, n);
    var j := if forward then (if i + 1 < n then i + 1 else 0) else (if i > 0 then i - 1 else n - 1);
    ModOnce(j + 1 + n, n);
    ModOnce(j - 1 + n, n);
  }

  lemma ModOnce(x: nat, n: nat)
    requires n > 0 && x < 3 * n
    ensures x % n == if x < n then x else if x < 2 * n then x - n else x - 2 * n
  {
  }

  /** Cycling moves the active pane to its neighbour and nothing else. */
  lemma CycleIs(w: Workspace, forward: bool)
    requires Inv(w) && w.activeGroupId.Some? && |w.groups[w.activeGroupId.value].panes| >= 2
    ensures var panes := w.groups[w.activeGroupId.value].panes;
            var i := IndexOf(panes, w.activeId.value);
            && 0 <= i < |panes| && panes[i] == w.activeId.value
            && DoCyclePane(w, forward) == w.(activeId := Some(panes[Neighbour(i, |panes|, forward)]))
  {
    var gid := w.activeGroupId.value;
    var panes := w.groups[gid].panes;
    IndexOfIs(panes, w.activeId.value);
    assert GroupInv(w, gid);
    assert panes[Neighbour(IndexOf(panes, w.activeId.value), |panes|, forward)] in panes;
  }

  ghost predicate OnePaneMore(w: Workspace, w': Workspace, gid: GroupId, direction: Direction)
    requires gid in w.groups
  {
    && w'.activeGroupId == Some(gid) && w'.activeId.Some? && w'.activeId.value !in w.objects
    && w'.groups.Keys == w.groups.Keys
    && w'.groups[gid].panes == w.groups[gid].panes + [w'.activeId.value]
    && w'.groups[gid].direction == (if |w.groups[gid].panes| == 1 then direction else w.groups[gid].direction)
    && w'.objects == w.objects[w'.activeId.value := Object(gid, BP.NewPane())]
    && forall g :: g in w.groups && g != gid ==> w'.groups[g] == w.groups[g]
  }

  /** Splitting adds one fresh connecting pane to the active group and makes it the active
      one, unless there is no group or it is full; a group's first split decides its direction. */
  lemma SplitAddsOne(es: seq<Event>, direction: Direction)
    ensures var w, w' := Run(Empty(), es), Step(Run(Empty(), es), SplitActive(direction));
            && (w.groups == map[] ==> w' == w)
            && (w.groups != map[] ==>
                  && w.activeGroupId.Some? && w.activeGroupId.value in w.groups
                  && if |w.groups[w.activeGroupId.value].panes| == 4 then w' == w
                     else OnePaneMore(w, w', w.activeGroupId.value, direction))
  {
    Reachable(es);
    var w := Run(Empty(), es);
    if w.activeGroupId.Some? {
      assert GroupInv(w, w.activeGroupId.value);
      if |w.groups[w.activeGroupId.value].panes| < 4 { SplitIs(w, direction); }
    }
  }

  lemma SplitIs(w: Workspace, direction: Direction)
    requires Inv(w) && w.activeGroupId.Some? && |w.groups[w.activeGroupId.value].panes| < 4
    ensures OnePaneMore(w, DoSplitActive(w, direction), w.activeGroupId.value, direction)
  {
    assert w.serial + 1 in w.objects ==> ObjectInv(w, w.serial + 1);
  }

  /** Closing others leaves the pane its menu was opened for alone in its group, and active,
      exactly when that pane is still a session. If it was closed meanwhile, its group loses
      every pane it has. No other group is touched either way. */
  lemma CloseOthersExactly(es: seq<Event>, id: PaneId)
    requires var w := Run(Empty(), es); id in w.objects && w.objects[id].groupId in w.groups
    ensures var w, w' := Run(Empty(), es), Step(Run(Empty(), es), CloseOtherPanes(id));
            var gid := w.objects[id].groupId;
            && (id in w.sessions <==> gid in w'.groups)
            && (id in w.sessions ==> LeavesOne(w, w', gid, id))
            && (id !in w.sessions ==> LeavesNone(w, w', gid))
  {
    Reachable(es);
    var w := Run(Empty(), es);
    if id in w.sessions { CloseOthersOfLive(w, id); } else { CloseOthersOfGone(w, id); }
  }

  ghost predicate LeavesOne(w: Workspace, w': Workspace, gid: GroupId, id: PaneId) {
    && w'.groups.Keys == w.groups.Keys && gid in w'.groups && w'.groups[gid].panes == [id]
    && w'.activeId == Some(id) && w'.activeGroupId == Some(gid)
    && forall g :: g in w.groups && g != gid ==> w'.groups[g] == w.groups[g]
  }

  ghost predicate LeavesNone(w: Workspace, w': Workspace, gid: GroupId) {
    && w'.groups == w.groups - {gid}
    && forall id :: id in w'.objects && w'.objects[id].groupId == gid ==> id !in w'.sessions
  }

  lemma CloseOthersOfLive(w: Workspace, id: PaneId)
    requires Inv(w) && id in w.sessions
    ensures id in w.objects && LeavesOne(w, DoCloseOthers(w, id), w.objects[id].groupId, id)
  {
    assert ObjectInv(w, id);
    var gid := w.objects[id].groupId;
    assert GroupInv(w, gid);
    var others := Without(w.groups[gid].panes, id);
    WithoutIs(w.groups[gid].panes, id);
    RemovingSome(w, gid, id, others);
    RemoveSessionsKeeps(w, others);
    LoneGroup(RemoveSessions(w, others), gid, id);
  }

  lemma CloseOthersOfGone(w: Workspace, id: PaneId)
    requires Inv(w) && id in w.objects && id !in w.sessions && w.objects[id].groupId in w.groups
    ensures LeavesNone(w, DoCloseOthers(w, id), w.objects[id].groupId)
  {
    var gid := w.objects[id].groupId;
    assert GroupInv(w, gid);
    var panes := w.groups[gid].panes;
    WithoutIs(panes, id);
    var w' := RemoveSessions(w, panes);
    RemovingAll(w, gid);
    RemoveSessionsKeeps(w, panes);
    ActivateKeeps(w', id, {});
    forall x | x in w'.objects && w'.objects[x].groupId == gid ensures x !in w'.sessions {
      assert ObjectInv(w', x);
    }
  }

  /** Removing all panes of a group, the last one with the group. */
  lemma RemovingAll(w: Workspace, gid: GroupId)
    requires Inv(w) && gid in w.groups
    ensures RemoveSessions(w, w.groups[gid].panes).groups == w.groups - {gid}
  {
    var panes := w.groups[gid].panes;
    assert GroupInv(w, gid);
    var init, last := panes[..|panes| - 1], panes[|panes| - 1];
    assert panes == init + [last];
    RemovingSome(w, gid, last, init);
    RemoveSessionsKeeps(w, init);
    LastOfGroup(w, RemoveSessions(w, init), gid, last, init);
  }

  lemma LastOfGroup(w: Workspace, w1: Workspace, gid: GroupId, last: PaneId, others: seq<PaneId>)
    requires Inv(w1) && gid in w.groups && OnlyFrom(w, w1, gid, others)
    requires w.groups[gid].panes == others + [last] && last !in others
    ensures DoRemoveSession(w1, last).groups == w.groups - {gid}
  {
    LoneGroup(w1, gid, last);
    RemovingLast(w1, gid, last);
    assert w1.groups - {gid} == w.groups - {gid};
  }

  lemma RemovingLast(w: Workspace, gid: GroupId, id: PaneId)
    requires gid in w.groups && w.groups[gid].panes == [id]
    requires id in w.sessions && id in w.objects && w.objects[id].groupId == gid
    ensures DoRemoveSession(w, id).groups == w.groups - {gid}
  {
    assert Without([id], id) == [];
    DisposedIs(w, id);
    var w1 := TakenOut(w, id);
    assert DoRemoveSession(w, id) == DoRemoveGroup(w1, gid);
    RemoveGroupFrame(w1, gid);
    assert w1.groups - {gid} == w.groups - {gid};
  }

  lemma RemoveGroupFrame(w: Workspace, gid: GroupId)
    requires gid in w.groups
    ensures DoRemoveGroup(w, gid).groups == w.groups - {gid}
  {
    DroppedFrame(w, gid);
  }

  /** A pane still shown in an open menu, after the close-pane shortcut took it away: asking
      to close the others closes the one that is left. */
  lemma StaleMenuClosesAll()
    ensures var es := [CreateSession, SplitActive(Right), ClosePane(3)];
            var w, w' := Run(Empty(), es), Step(Run(Empty(), es), CloseOtherPanes(3));
            && w.sessions == {2} && w.groups.Keys == {1} && 3 in w.objects && w.objects[3].groupId == 1
            && w'.groups == map[] && w'.sessions == {}
  {
    var es := [CreateSession, SplitActive(Right), ClosePane(3)];
    var w1, w2, w := OnePane(), TwoPanes(), Run(Empty(), es);
    assert es[..2][..1] == [CreateSession] && es[..2][..1][..0] == [];
    assert es[..2][1] == SplitActive(Right);
    FirstPane();
    assert Run(Empty(), es[..2][..1]) == w1;
    SecondPane();
    assert Run(Empty(), es[..2]) == w2;
    SecondPaneCloses();
    Reachable(es);
    CloseOthersExactly(es, 3);
    var w' := Step(w, CloseOtherPanes(3));
    assert w'.groups == map[];
    StepKeeps(w, CloseOtherPanes(3));
    NoGroupsNoSessions(w');
  }

  function OnePane(): Workspace {
    Workspace(map[1 := Group([2], Right)], [1], map[2 := Object(1, BP.NewPane())], {2}, Some(2), Some(1), 2)
  }

  function TwoPanes(): Workspace {
    Workspace(map[1 := Group([2, 3], Right)], [1],
              map[2 := Object(1, BP.NewPane()), 3 := Object(1, BP.NewPane())], {2, 3}, Some(3), Some(1), 3)
  }

  lemma NoGroupsNoSessions(w: Workspace)
    requires Structure(w, {}) && w.groups == map[]
    ensures w.sessions == {}
  {
    forall id | id in w.objects ensures id !in w.sessions { assert ObjectInv(w, id); }
  }

  lemma FirstPane()
    ensures Step(Empty(), CreateSession) == OnePane()
  {
    var g := OpenGroup(Empty());
    assert g == Workspace(map[1 := Group([], Right)], [1], map[], {}, None, None, 1);
    var w := DoCreatePane(g, 1).0;
    assert g.groups[1].panes + [2] == [2];
    assert w.groups == g.groups[1 := Group([2], Right)];
    assert w.groups == map[1 := Group([2], Right)];
    assert w == Workspace(map[1 := Group([2], Right)], [1], map[2 := Object(1, BP.NewPane())], {2}, None, None, 2);
  }

  lemma SecondPane()
    ensures Step(OnePane(), SplitActive(Right)) == TwoPanes()
  {
    assert [2] + [3] == [2, 3] && {2} + {3} == {2, 3};
  }

  lemma SecondPaneCloses()
    ensures var w := Step(TwoPanes(), ClosePane(3));
            w.sessions == {2} && w.groups.Keys == {1} && 3 in w.objects && w.objects[3].groupId == 1
  {
    var w := TwoPanes();
    DisposedIs(w, 3);
    LastGoes();
    assert Step(w, ClosePane(3)) == DoRemoveSession(w, 3);
    assert {2, 3} - {3} == {2};
  }

  lemma LastGoes()
    ensures Without([2, 3], 3) == [2]
  {
    assert [2, 3][..1] == [2] && [2][..0] == [];
    assert Without([2], 3) == [2];
  }

  lemma LoneGroup(w: Workspace, gid: GroupId, id: PaneId)
    requires Inv(w) && gid in w.groups && forall x :: x in w.groups[gid].panes <==> x == id
    ensures w.groups[gid].panes == [id]
    ensures id in w.sessions && id in w.objects && w.objects[id].groupId == gid
  {
    assert GroupInv(w, gid);
    assert id in w.groups[gid].panes;
    OnlyOneLeft(w.groups[gid].panes, id);
  }

  lemma OnlyOneLeft(s: seq<nat>, x: nat)
    requires Distinct(s) && (forall y :: y in s <==> y == x)
    ensures s == [x]
  {
    assert x in s;
    assert s[0] in s && s[|s| - 1] in s;
  }

  /** Removing panes of a group while one stays. */
  lemma {:induction false} RemovingSome(w: Workspace, gid: GroupId, id: PaneId, ids: seq<PaneId>)
    requires Inv(w) && gid in w.groups && id in w.groups[gid].panes && id !in ids
    requires Distinct(ids) && forall x :: x in ids ==> x in w.groups[gid].panes
    ensures OnlyFrom(w, RemoveSessions(w, ids), gid, ids)
  {
    if ids != [] {
      var init, last := ids[..|ids| - 1], ids[|ids| - 1];
      assert ids == init + [last];
      RemovingSome(w, gid, id, init);
      RemoveSessionsKeeps(w, init);
      RemovingOne(RemoveSessions(w, init), gid, id, last);
    }
  }

  /** From `w` to `w'` exactly the panes `ids` have left the group, and no other group changed. */
  ghost predicate OnlyFrom(w: Workspace, w': Workspace, gid: GroupId, ids: seq<PaneId>)
    requires gid in w.groups
  {
    && w'.groups.Keys == w.groups.Keys
    && (forall x :: x in w'.groups[gid].panes <==> x in w.groups[gid].panes && x !in ids)
    && (forall g :: g in w.groups && g != gid ==> w'.groups[g] == w.groups[g])
  }

  lemma RemovingOne(w: Workspace, gid: GroupId, id: PaneId, x: PaneId)
    requires Inv(w) && gid in w.groups && id in w.groups[gid].panes && x in w.groups[gid].panes && x != id
    ensures OnlyFrom(w, DoRemoveSession(w, x), gid, [x])
  {
    assert GroupInv(w, gid);
    var kept := Without(w.groups[gid].panes, x);
    WithoutIs(w.groups[gid].panes, x);
    assert id in kept;
    DisposedIs(w, x);
    assert TakenOut(w, x).groups == w.groups[gid := w.groups[gid].(panes := kept)];
    assert DoRemoveSession(w, x) == DoActivatePane(TakenOut(w, x), kept[0]);
  }

  /** Logging out closes everything: no group, no session, nothing active, and no pane ever
      made has a socket or a pending timer. */
  lemma LogoutClosesAll(es: seq<Event>)
    ensures var w := Step(Run(Empty(), es), Logout);
            && w.groups == map[] && w.order == [] && w.sessions == {} && w.activeId.None? && w.activeGroupId.None?
            && forall id :: id in w.objects ==>
                 w.objects[id].pane.socket.None? && w.objects[id].pane.browser.pendingRetries == {}
  {
    Reachable(es);
    NothingLeft(Run(Empty(), es));
  }

  lemma NothingLeft(before: Workspace)
    requires Inv(before)
    ensures var w := RemoveGroups(before, before.order);
            && w.groups == map[] && w.order == [] && w.sessions == {} && w.activeId.None? && w.activeGroupId.None?
            && forall id :: id in w.objects ==>
                 w.objects[id].pane.socket.None? && w.objects[id].pane.browser.pendingRetries == {}
  {
    RemoveGroupsKeeps(before, before.order);
    var w := RemoveGroups(before, before.order);
    forall g ensures g !in w.groups { if g in before.groups { assert g in before.order; } }
    NoOrderNoGroups(w);
    forall id | id in w.objects ensures id !in w.sessions { assert ObjectInv(w, id); }
  }
}
