/** The page's own variables, changed step by step as its handlers change them. */
module BrowserActions {
  import opened Wrappers
  import opened BrowserWorkspace
  import BP = BrowserPane

  method Filter(panes: seq<PaneId>, id: PaneId) returns (kept: seq<PaneId>)
    ensures kept == Without(panes, id)
  {
    kept := [];
    for i := 0 to |panes|
      invariant kept == Without(panes[..i], id)
    {
      assert panes[..i + 1][..i] == panes[..i];
      if panes[i] != id { kept := kept + [panes[i]]; }
    }
    assert panes[..|panes|] == panes;
  }

  method FindIndex(panes: seq<PaneId>, id: PaneId) returns (index: int)
    ensures index == IndexOf(panes, id) < |panes|
  {
    index := 0;
    while index < |panes|
      invariant 0 <= index <= |panes|
      invariant IndexOf(panes, id) ==
                if IndexOf(panes[index..], id) < 0 then -1 else index + IndexOf(panes[index..], id)
    {
      assert panes[index..][1..] == panes[index + 1..];
      if panes[index] == id { return; }
      index := index + 1;
    }
    index := -1;
  }

  class Page {
    var groups: map<GroupId, Group>
    var order: seq<GroupId>
    var objects: map<PaneId, Object>
    var sessions: set<PaneId>
    var activeId: Option<PaneId>
    var activeGroupId: Option<GroupId>
    var serial: nat

    ghost function View(): Workspace
      reads this
    {
      Workspace(groups, order, objects, sessions, activeId, activeGroupId, serial)
    }

    constructor ()
      ensures View() == Empty()
    {
      groups, order, objects, sessions := map[], [], map[], {};
      activeId, activeGroupId, serial := None, None, 0;
    }

    method ActivatePane(id: PaneId)
      modifies this
      ensures View() == DoActivatePane(old(View()), id)
    {
      if id !in sessions || id !in objects { return; }
      activeGroupId := Some(objects[id].groupId);
      activeId := Some(id);
    }

    method ActivateGroup(gid: GroupId)
      modifies this
      ensures View() == DoActivateGroup(old(View()), gid)
    {
      if gid !in groups || groups[gid].panes == [] { return; }
      var panes := groups[gid].panes;
      var first := panes[0];
      if activeId.Some? && activeId.value in panes { first := activeId.value; }
      ActivatePane(first);
    }

    method CreatePane(gid: GroupId) returns (id: Option<PaneId>)
      modifies this
      ensures (View(), id) == DoCreatePane(old(View()), gid)
    {
      if gid !in groups || |groups[gid].panes| >= MAX_PANES { return None; }
      serial := serial + 1;
      id := Some(serial);
      sessions := sessions + {serial};
      groups := groups[gid := groups[gid].(panes := groups[gid].panes + [serial])];
      objects := objects[serial := Object(gid, BP.NewPane())];
    }

    method CreateSession()
      modifies this
      ensures View() == DoCreateSession(old(View()))
    {
      serial := serial + 1;
      var gid := serial;
      groups := groups[gid := Group([], Right)];
      order := order + [gid];
      var id := CreatePane(gid);
      if id.Some? { ActivatePane(id.value); }
    }

    method SplitActive(direction: Direction)
      modifies this
      ensures View() == DoSplitActive(old(View()), direction)
    {
      if activeGroupId.None? || activeGroupId.value !in groups { return; }
      var gid := activeGroupId.value;
      if |groups[gid].panes| >= MAX_PANES { return; }
      if |groups[gid].panes| == 1 { groups := groups[gid := groups[gid].(direction := direction)]; }
      var id := CreatePane(gid);
      if id.Some? { ActivatePane(id.value); }
    }

    method Dispose(id: PaneId)
      modifies this
      ensures View() == DisposePane(old(View()), id)
    {
      if id !in objects { return; }
      objects := objects[id := objects[id].(pane := BP.Step(objects[id].pane, BP.Disposed))];
      sessions := sessions - {id};
    }

    method RemoveGroup(gid: GroupId)
      modifies this
      ensures View() == DoRemoveGroup(old(View()), gid)
    {
      if gid !in groups { return; }
      ghost var before := View();
      var panes := groups[gid].panes;
      for i := 0 to |panes|
        invariant View() == DisposeAll(before, panes[..i])
      {
        assert panes[..i + 1][..i] == panes[..i];
        Dispose(panes[i]);
      }
      assert panes[..|panes|] == panes;
      groups := groups - {gid};
      order := Filter(order, gid);
      if activeGroupId == Some(gid) {
        if order != [] {
          ActivateGroup(order[0]);
        } else {
          activeGroupId := None;
          activeId := None;
        }
      }
    }

    method RemoveSession(id: PaneId)
      modifies this
      ensures View() == DoRemoveSession(old(View()), id)
    {
      if id !in sessions || id !in objects { return; }
      var gid := objects[id].groupId;
      Dispose(id);
      if gid !in groups { return; }
      var panes := Filter(groups[gid].panes, id);
      groups := groups[gid := groups[gid].(panes := panes)];
      if panes == [] {
        RemoveGroup(gid);
        return;
      }
      ActivatePane(panes[0]);
    }

    method CloseOtherPanes(id: PaneId)
      modifies this
      ensures View() == DoCloseOthers(old(View()), id)
    {
      ghost var before := View();
      if id !in objects || objects[id].groupId !in groups { return; }
      var others := Filter(groups[objects[id].groupId].panes, id);
      for i := 0 to |others|
        invariant View() == RemoveSessions(before, others[..i])
      {
        assert others[..i + 1][..i] == others[..i];
        RemoveSession(others[i]);
      }
      assert others[..|others|] == others;
      ActivatePane(id);
    }

    method Logout()
      modifies this
      ensures View() == RemoveGroups(old(View()), old(order))
    {
      ghost var before := View();
      var gids := order;
      for i := 0 to |gids|
        invariant View() == RemoveGroups(before, gids[..i])
      {
        assert gids[..i + 1][..i] == gids[..i];
        RemoveGroup(gids[i]);
      }
      assert gids[..|gids|] == gids;
    }

    method CyclePane(forward: bool)
      modifies this
      ensures View() == DoCyclePane(old(View()), forward)
    {
      if activeGroupId.None? || activeGroupId.value !in groups || activeId.None? { return; }
      var panes := groups[activeGroupId.value].panes;
      if |panes| < 2 { return; }
      var index := FindIndex(panes, activeId.value);
      if index < 0 { return; }
      var delta := if forward then 1 else -1;
      ActivatePane(panes[(index + delta + |panes|) % |panes|]);
    }

    method ClosePane(id: PaneId)
      modifies this
      ensures View() == DoClosePane(old(View()), id)
    {
      if id in objects && objects[id].groupId in groups && |groups[objects[id].groupId].panes| > 1 {
        RemoveSession(id);
      }
    }

    method PaneEvent(id: PaneId, e: BP.Event)
      modifies this
      ensures View() == DoAtPane(old(View()), id, e)
    {
      if id in objects && !e.Disposed? {
        objects := objects[id := objects[id].(pane := BP.Step(objects[id].pane, e))];
      }
    }

    /** Any event the page can see, from any state it can be in. */
    method Handle(e: Event)
      requires Inv(View())
      modifies this
      ensures View() == Step(old(View()), e) && Inv(View())
    {
      StepKeeps(View(), e);
      match e
      case CreateSession => CreateSession();
      case SplitActive(direction) => SplitActive(direction);
      case ClosePane(id) => ClosePane(id);
      case CloseOtherPanes(id) => CloseOtherPanes(id);
      case RemoveGroup(gid) => RemoveGroup(gid);
      case Logout => Logout();
      case ActivatePane(id) => ActivatePane(id);
      case ActivateGroup(gid) => ActivateGroup(gid);
      case CyclePane(forward) => CyclePane(forward);
      case AtPane(id, event) => PaneEvent(id, event);
    }
  }
}
