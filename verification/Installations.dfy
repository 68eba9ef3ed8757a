/** The list of configured installations and the active one: component state,
    browser storage, the gateway address of the API layer, and the effect that
    repairs a dangling active id. */
module Installations {
  import opened Wrappers

  datatype Installation = Installation(id: string, name: string, gatewayBaseUrl: string)

  /** What the storage entry of the list reads as: missing or empty, not a non-empty JSON array, or a list. */
  datatype Stored = Absent | Malformed | Parsed(list: seq<Installation>)

  datatype State = State(installations: seq<Installation>, activeId: string, gateway: string,
                         storedList: Stored, storedActiveId: Option<string>)

  function DefaultInstallation(baseUrl: string): Installation { Installation("default", "Lokal", baseUrl) }

  function LoadInstallations(stored: Stored, baseUrl: string): (r: seq<Installation>)
    ensures r != []
  {
    if stored.Parsed? && stored.list != [] then stored.list else [DefaultInstallation(baseUrl)]
  }

  predicate HasId(list: seq<Installation>, id: string) { exists i :: 0 <= i < |list| && list[i].id == id }

  /** `list.find(...) ?? list[0]`. */
  function Resolve(list: seq<Installation>, id: string): (r: Installation)
    requires list != []
    ensures r in list
    ensures if HasId(list, id) then r.id == id else r == list[0]
  {
    if HasId(list, id) then list[FirstWithId(list, id)] else list[0]
  }

  function FirstWithId(list: seq<Installation>, id: string): (i: nat)
    requires HasId(list, id)
    ensures i < |list| && list[i].id == id && !HasId(list[..i], id)
  {
    if list[0].id == id then 0
    else
      assert HasId(list[1..], id) by {
        var k :| 0 <= k < |list| && list[k].id == id;
        assert list[1..][k - 1] == list[k];
      }
      var i := FirstWithId(list[1..], id);
      assert list[..i + 1] == [list[0]] + list[1..][..i];
      i + 1
  }

  function Active(s: State): Installation
    requires s.installations != []
  {
    Resolve(s.installations, s.activeId)
  }

  /** The stored id, if it names an installation of the list; an empty id counts as none. */
  function InitialActiveId(list: seq<Installation>, stored: Option<string>): string
    requires list != []
  {
    if stored.Some? && stored.value != "" && HasId(list, stored.value) then stored.value else list[0].id
  }

  /** Every state change is followed by a render, which hands the gateway address on. */
  function Render(s: State): State
    requires s.installations != []
  {
    s.(gateway := Active(s).gatewayBaseUrl)
  }

  /** Initialising from storage. */
  function Init(storedList: Stored, storedActiveId: Option<string>, baseUrl: string): State {
    var list := LoadInstallations(storedList, baseUrl);
    Render(State(list, InitialActiveId(list, storedActiveId), "", storedList, storedActiveId))
  }

  datatype Event =
    | Add(installation: Installation)
    | Remove(id: string)
    | Switch(id: string)
    | RepairEffect

  function Without(list: seq<Installation>, id: string): (r: seq<Installation>)
    ensures forall x :: x in r <==> x in list && x.id != id
    ensures |r| <= |list|
  {
    if list == [] then [] else (if list[0].id == id then [] else [list[0]]) + Without(list[1..], id)
  }

  function Switched(s: State, id: string): State { s.(activeId := id, storedActiveId := Some(id)) }

  function Saved(s: State, list: seq<Installation>): State { s.(installations := list, storedList := Parsed(list)) }

  function Change(s: State, e: Event): State
    requires s.installations != []
  {
    match e
    case Add(installation) => Saved(s, s.installations + [installation])
    case Remove(id) => if |s.installations| <= 1 then s else Saved(s, Without(s.installations, id))
    case Switch(id) => Switched(s, id)
    case RepairEffect => if HasId(s.installations, s.activeId) then s else Switched(s, s.installations[0].id)
  }

  ghost predicate UniqueIds(list: seq<Installation>) {
    forall i, j :: 0 <= i < j < |list| ==> list[i].id != list[j].id
  }

  /** A fresh random id collides with nothing the component remembers. */
  ghost predicate Fresh(s: State, e: Event) {
    e.Add? ==>
      && !HasId(s.installations, e.installation.id)
      && e.installation.id != s.activeId && s.storedActiveId != Some(e.installation.id)
  }

  // ------------------------------------------------------------ removal

  lemma {:induction false} WithoutUnique(list: seq<Installation>, id: string)
    requires UniqueIds(list)
    ensures UniqueIds(Without(list, id)) && |Without(list, id)| >= |list| - 1
  {
    if list != [] {
      var tail, rest := list[1..], Without(list[1..], id);
      assert forall k :: 0 <= k < |tail| ==> tail[k] == list[k + 1];
      WithoutUnique(tail, id);
      if list[0].id == id {
        NotThere(tail, id);
      } else {
        assert forall x :: x in rest ==> x in tail && x.id != list[0].id;
        assert Without(list, id) == [list[0]] + rest;
        UniqueCons(list[0], rest);
      }
    }
  }

  lemma UniqueCons(x: Installation, rest: seq<Installation>)
    requires UniqueIds(rest) && forall y :: y in rest ==> y.id != x.id
    ensures UniqueIds([x] + rest)
  {
  }

  lemma {:induction false} NotThere(list: seq<Installation>, id: string)
    requires forall k :: 0 <= k < |list| ==> list[k].id != id
    ensures Without(list, id) == list
  {
    if list != [] {
      NotThere(list[1..], id);
    }
  }

  /** Removing an installation removes its id and no other; the first one stays first unless it is the removed one. */
  lemma WithoutIds(list: seq<Installation>, id: string)
    ensures forall other :: HasId(Without(list, id), other) <==> HasId(list, other) && other != id
    ensures list != [] && list[0].id != id ==> Without(list, id) != [] && Without(list, id)[0] == list[0]
  {
    var r := Without(list, id);
    forall other ensures HasId(r, other) <==> HasId(list, other) && other != id {
      if HasId(r, other) {
        var k :| 0 <= k < |r| && r[k].id == other;
        assert r[k] in r;
      }
      if HasId(list, other) && other != id {
        var k :| 0 <= k < |list| && list[k].id == other;
        assert list[k] in r;
      }
    }
  }

  // ------------------------------------------------------------ runs

  ghost predicate Safe(s: State, baseUrl: string) {
    && s.installations != [] && UniqueIds(s.installations)
    && LoadInstallations(s.storedList, baseUrl) == s.installations
    && Active(s) in s.installations && s.gateway == Active(s).gatewayBaseUrl
  }

  /** The stored id would not be taken at a reload. */
  ghost predicate StoredIgnored(s: State) {
    s.storedActiveId.None? || s.storedActiveId.value == "" || !HasId(s.installations, s.storedActiveId.value)
  }

  /** Either the active id is stored, or the stored one is ignored and the first installation is shown. */
  ghost predicate Remembered(s: State)
    requires s.installations != []
  {
    || s.storedActiveId == Some(s.activeId)
    || (StoredIgnored(s) && (s.activeId == s.installations[0].id || !HasId(s.installations, s.activeId)))
  }

  function Run(s: State, events: seq<Event>): (r: State)
    requires s.installations != []
    ensures r.installations != []
    decreases |events|
  {
    if events == [] then s
    else
      var next := Change(s, events[0]);
      if next.installations == [] then s else Run(Render(next), events[1..])
  }

  ghost predicate FreshRun(s: State, events: seq<Event>)
    requires s.installations != []
    decreases |events|
  {
    events != [] ==>
      && Fresh(s, events[0])
      && (Change(s, events[0]).installations != [] ==> FreshRun(Render(Change(s, events[0])), events[1..]))
  }

  lemma HasIdAppend(list: seq<Installation>, x: Installation)
    ensures forall id :: HasId(list + [x], id) <==> HasId(list, id) || x.id == id
  {
    forall id ensures HasId(list + [x], id) <==> HasId(list, id) || x.id == id {
      if HasId(list, id) {
        var k :| 0 <= k < |list| && list[k].id == id;
        assert (list + [x])[k].id == id;
      }
      assert (list + [x])[|list|] == x;
    }
  }

  lemma StepSafe(s: State, e: Event, baseUrl: string)
    requires Safe(s, baseUrl) && Remembered(s) && Fresh(s, e)
    ensures Change(s, e).installations != []
    ensures Safe(Render(Change(s, e)), baseUrl) && Remembered(Render(Change(s, e)))
  {
    var list := s.installations;
    match e
    case Add(x) =>
      HasIdAppend(list, x);
      assert forall i :: 0 <= i < |list| ==> HasId(list, list[i].id);
    case Remove(id) =>
      WithoutUnique(list, id);
      WithoutIds(list, id);
      assert HasId(list, list[0].id);
    case Switch(_) =>
    case RepairEffect =>
  }

  /** In every reachable state, also between a removal and the repair effect, the list is not empty,
      its ids are unique, it is what storage holds, the active installation is a member of it and the
      API layer uses its address. */
  lemma {:induction false} RunSafe(s: State, events: seq<Event>, baseUrl: string)
    requires Safe(s, baseUrl) && Remembered(s) && FreshRun(s, events)
    ensures Safe(Run(s, events), baseUrl) && Remembered(Run(s, events))
    decreases |events|
  {
    if events != [] {
      StepSafe(s, events[0], baseUrl);
      RunSafe(Render(Change(s, events[0])), events[1..], baseUrl);
    }
  }

  lemma InitSafe(storedList: Stored, storedActiveId: Option<string>, baseUrl: string)
    requires UniqueIds(LoadInstallations(storedList, baseUrl))
    ensures Safe(Init(storedList, storedActiveId, baseUrl), baseUrl) && Remembered(Init(storedList, storedActiveId, baseUrl))
  {
  }

  /** What a first start shows, and a start with a stored list. */
  lemma StartShows(stored: Stored, storedActiveId: Option<string>, baseUrl: string)
    ensures var s := Init(stored, storedActiveId, baseUrl);
            && (!stored.Parsed? || stored.list == [] ==>
                  && s.installations == [Installation("default", "Lokal", baseUrl)]
                  && Active(s) == Installation("default", "Lokal", baseUrl) && s.gateway == baseUrl)
            && (stored.Parsed? && stored.list != [] ==> s.installations == stored.list)
            && (storedActiveId.Some? && storedActiveId.value != "" && HasId(s.installations, storedActiveId.value) ==>
                  Active(s).id == storedActiveId.value)
            && (storedActiveId.None? || storedActiveId.value == "" ==> s.activeId == s.installations[0].id)
  {
    var list := LoadInstallations(stored, baseUrl);
    assert HasId(list, list[0].id);
  }

  function Reload(s: State, baseUrl: string): State { Init(s.storedList, s.storedActiveId, baseUrl) }

  /** A reload restores list and active installation after any run, from any stored state whose ids are
      unique, also when the stored active id is missing or dangling; the only exception is an active
      installation whose id is the empty string, which storage cannot tell from none, unless it is the first. */
  lemma ReloadRestores(storedList: Stored, storedActiveId: Option<string>, events: seq<Event>, baseUrl: string)
    requires UniqueIds(LoadInstallations(storedList, baseUrl))
    requires FreshRun(Init(storedList, storedActiveId, baseUrl), events)
    ensures var s := Run(Init(storedList, storedActiveId, baseUrl), events);
            && Reload(s, baseUrl).installations == s.installations != []
            && (Active(Reload(s, baseUrl)) == Active(s) <==> !(Active(s).id == "" && s.installations[0].id != ""))
  {
    var s0 := Init(storedList, storedActiveId, baseUrl);
    InitSafe(storedList, storedActiveId, baseUrl);
    RunSafe(s0, events, baseUrl);
    var s := Run(s0, events);
    assert HasId(s.installations, s.installations[0].id);
    SameId(s.installations, Active(Reload(s, baseUrl)), Active(s));
  }

  lemma SameId(list: seq<Installation>, a: Installation, b: Installation)
    requires UniqueIds(list) && a in list && b in list
    ensures a == b <==> a.id == b.id
  {
  }

  /** The random ids of added installations are not empty. */
  ghost predicate NamedAdds(events: seq<Event>) {
    forall e :: e in events && e.Add? ==> e.installation.id != ""
  }

  /** An empty id can only be that of the first installation. */
  ghost predicate EmptyIdFirst(list: seq<Installation>)
    requires list != []
  {
    HasId(list, "") ==> list[0].id == ""
  }

  lemma {:induction false} EmptyIdStaysFirst(s: State, events: seq<Event>, baseUrl: string)
    requires Safe(s, baseUrl) && Remembered(s) && FreshRun(s, events) && NamedAdds(events)
    requires EmptyIdFirst(s.installations)
    ensures Run(s, events).installations != [] && EmptyIdFirst(Run(s, events).installations)
    decreases |events|
  {
    hide Remembered, Fresh, UniqueIds;
    if events != [] {
      var list, e := s.installations, events[0];
      StepSafe(s, e, baseUrl);
      assert e in events && forall e' :: e' in events[1..] ==> e' in events;
      if e.Add? {
        HasIdAppend(list, e.installation);
      } else if e.Remove? {
        WithoutIds(list, e.id);
      }
      EmptyIdStaysFirst(Render(Change(s, e)), events[1..], baseUrl);
    }
  }

  /** Switching to an installation with an empty id behind the first is not remembered. */
  lemma EmptyIdLost(storedList: Stored, storedActiveId: Option<string>, baseUrl: string)
    requires !EmptyIdFirst(LoadInstallations(storedList, baseUrl))
    ensures var s0 := Init(storedList, storedActiveId, baseUrl);
            var s := Run(s0, [Switch("")]);
            && FreshRun(s0, [Switch("")]) && s.installations == s0.installations
            && Active(s).id == "" && Active(Reload(s, baseUrl)) == s.installations[0] != Active(s)
  {
    var s0 := Init(storedList, storedActiveId, baseUrl);
    assert [Switch("")][1..] == [];
    assert Run(s0, [Switch("")]) == Run(Render(Change(s0, Switch(""))), []);
  }

  /** From stored installations with unique ids a reload restores the active installation after every run,
      if and only if no installation but the first has an empty id. */
  lemma AlwaysRestoredIff(storedList: Stored, storedActiveId: Option<string>, baseUrl: string)
    requires UniqueIds(LoadInstallations(storedList, baseUrl))
    ensures var s0 := Init(storedList, storedActiveId, baseUrl);
            (forall events :: FreshRun(s0, events) && NamedAdds(events) ==>
               Run(s0, events).installations != []
               && Active(Reload(Run(s0, events), baseUrl)) == Active(Run(s0, events)))
            <==> EmptyIdFirst(LoadInstallations(storedList, baseUrl))
  {
    var s0 := Init(storedList, storedActiveId, baseUrl);
    if EmptyIdFirst(s0.installations) {
      InitSafe(storedList, storedActiveId, baseUrl);
      forall events | FreshRun(s0, events) && NamedAdds(events)
        ensures Run(s0, events).installations != []
        ensures Active(Reload(Run(s0, events), baseUrl)) == Active(Run(s0, events))
      {
        ReloadRestores(storedList, storedActiveId, events, baseUrl);
        EmptyIdStaysFirst(s0, events, baseUrl);
        var list := Run(s0, events).installations;
        var active := Active(Run(s0, events));
        var k :| 0 <= k < |list| && list[k] == active;
        assert HasId(list, active.id);
      }
    } else {
      EmptyIdLost(storedList, storedActiveId, baseUrl);
      assert NamedAdds([Switch("")]);
    }
  }

  // ------------------------------------------------------------ what is in the list

  /** An installation and the number of events after which it was first in the list. */
  type Entry = (Installation, nat)

  /** The installations of the start and then the added ones, in the order of the events. */
  function Chronicle(list: seq<Installation>, events: seq<Event>): (r: seq<Entry>)
    ensures forall x :: x in r ==> x.1 <= |events|
  {
    if events == [] then seq(|list|, i requires 0 <= i < |list| => (list[i], 0))
    else
      var n := |events| - 1;
      Chronicle(list, events[..n]) + if events[n].Add? then [(events[n].installation, n + 1)] else []
  }

  /** No later event removes its id while there is another installation; the last one is never removed. */
  ghost predicate Stays(s: State, events: seq<Event>, x: Entry)
    requires s.installations != []
  {
    forall i :: x.1 <= i < |events| && events[i] == Remove(x.0.id) ==> |Run(s, events[..i]).installations| <= 1
  }

  ghost function Staying(s: State, events: seq<Event>, entries: seq<Entry>): seq<Installation>
    requires s.installations != []
  {
    if entries == [] then []
    else (if Stays(s, events, entries[0]) then [entries[0].0] else []) + Staying(s, events, entries[1..])
  }

  lemma {:induction false} RunAppend(s: State, events: seq<Event>, e: Event, baseUrl: string)
    requires Safe(s, baseUrl) && Remembered(s) && FreshRun(s, events + [e])
    ensures FreshRun(s, events) && Fresh(Run(s, events), e) && Change(Run(s, events), e).installations != []
    ensures Run(s, events + [e]) == Render(Change(Run(s, events), e))
    decreases |events|
  {
    hide Change, Safe, Remembered, Fresh, Render;
    SafeList(s, baseUrl);
    if events == [] {
      assert events + [e] == [e] && [e][1..] == [];
      StepSafe(s, e, baseUrl);
    } else {
      assert (events + [e])[1..] == events[1..] + [e];
      StepSafe(s, events[0], baseUrl);
      SafeList(Render(Change(s, events[0])), baseUrl);
      RunAppend(Render(Change(s, events[0])), events[1..], e, baseUrl);
    }
  }

  lemma SafeList(s: State, baseUrl: string)
    requires Safe(s, baseUrl)
    ensures s.installations != []
  {
  }

  lemma StaysOneMore(s: State, events: seq<Event>, e: Event, x: Entry)
    requires s.installations != [] && x.1 <= |events|
    ensures Stays(s, events + [e], x) <==>
            Stays(s, events, x) && (e == Remove(x.0.id) ==> |Run(s, events).installations| <= 1)
  {
    var more := events + [e];
    assert more[..|events|] == events && more[|events|] == e;
    assert forall i :: 0 <= i < |events| ==> more[i] == events[i] && more[..i] == events[..i];
  }

  lemma {:induction false} StayingOneMore(s: State, events: seq<Event>, e: Event, entries: seq<Entry>)
    requires s.installations != [] && forall x :: x in entries ==> x.1 <= |events|
    ensures var before := Staying(s, events, entries);
            Staying(s, events + [e], entries) ==
            if e.Remove? && |Run(s, events).installations| > 1 then Without(before, e.id) else before
  {
    hide Stays, Run, Without, Staying;
    if entries == [] {
      NothingStays(s, events);
      NothingStays(s, events + [e]);
    } else {
      var x, rest := entries[0], entries[1..];
      assert x in entries && forall y :: y in rest ==> y in entries;
      assert entries == [x] + rest;
      StaysOneMore(s, events, e, x);
      StayingOneMore(s, events, e, rest);
      StayingCons(s, events, x, rest);
      StayingCons(s, events + [e], x, rest);
      if e.Remove? {
        WithoutCons(x.0, Staying(s, events, rest), e.id);
      }
    }
  }

  lemma NothingStays(s: State, events: seq<Event>)
    requires s.installations != []
    ensures Staying(s, events, []) == [] && forall id :: Without([], id) == []
  {
  }

  lemma StayingCons(s: State, events: seq<Event>, x: Entry, rest: seq<Entry>)
    requires s.installations != []
    ensures Staying(s, events, [x] + rest) ==
            if Stays(s, events, x) then [x.0] + Staying(s, events, rest) else Staying(s, events, rest)
  {
    assert ([x] + rest)[1..] == rest;
  }

  lemma WithoutCons(x: Installation, rest: seq<Installation>, id: string)
    ensures Without([x] + rest, id) == if x.id == id then Without(rest, id) else [x] + Without(rest, id)
  {
    assert ([x] + rest)[1..] == rest;
  }

  lemma {:induction false} StayingConcat(s: State, events: seq<Event>, a: seq<Entry>, b: seq<Entry>)
    requires s.installations != []
    ensures Staying(s, events, a + b) == Staying(s, events, a) + Staying(s, events, b)
  {
    hide Stays, Run;
    if a == [] {
      assert a + b == b;
    } else {
      assert (a + b)[1..] == a[1..] + b;
      StayingConcat(s, events, a[1..], b);
    }
  }

  lemma {:induction false} StayingAtStart(s: State, entries: seq<Entry>)
    requires s.installations != []
    ensures |Staying(s, [], entries)| == |entries|
    ensures forall i :: 0 <= i < |entries| ==> Staying(s, [], entries)[i] == entries[i].0
  {
    if entries != [] {
      StayingAtStart(s, entries[1..]);
    }
  }

  lemma NewcomerStays(s: State, events: seq<Event>, x: Installation)
    requires s.installations != []
    ensures Staying(s, events, [(x, |events|)]) == [x]
  {
    assert Stays(s, events, (x, |events|));
    assert [(x, |events|)][1..] == [];
  }

  /** After any run the list holds exactly the installations of the start and the added ones that no later removal
      took away, in that order, with name and address as they were given. */
  lemma {:induction false} RunLists(s: State, events: seq<Event>, baseUrl: string)
    requires Safe(s, baseUrl) && Remembered(s) && FreshRun(s, events)
    ensures s.installations != []
    ensures Run(s, events).installations == Staying(s, events, Chronicle(s.installations, events))
    decreases |events|
  {
    SafeList(s, baseUrl);
    hide *;
    if events == [] {
      ListAtStart(s);
    } else {
      var n := |events| - 1;
      assert events == events[..n] + [events[n]];
      RunAppend(s, events[..n], events[n], baseUrl);
      RunLists(s, events[..n], baseUrl);
      ListStep(s, events[..n], events[n]);
    }
  }

  lemma ListStep(s: State, events: seq<Event>, e: Event)
    requires s.installations != [] && Change(Run(s, events), e).installations != []
    requires Run(s, events).installations == Staying(s, events, Chronicle(s.installations, events))
    ensures Render(Change(Run(s, events), e)).installations ==
            Staying(s, events + [e], Chronicle(s.installations, events + [e]))
  {
    hide *;
    var earlier := Chronicle(s.installations, events);
    ListAfter(Run(s, events), e);
    StayingOneMore(s, events, e, earlier);
    ChronicleStep(s.installations, events, e);
    if e.Add? {
      StayingConcat(s, events + [e], earlier, [(e.installation, |events + [e]|)]);
      NewcomerStays(s, events + [e], e.installation);
    } else {
      assert earlier + [] == earlier;
    }
  }

  lemma ListAtStart(s: State)
    requires s.installations != []
    ensures Run(s, []).installations == Staying(s, [], Chronicle(s.installations, []))
  {
    StayingAtStart(s, Chronicle(s.installations, []));
  }

  lemma ListAfter(s: State, e: Event)
    requires s.installations != [] && Change(s, e).installations != []
    ensures Render(Change(s, e)).installations ==
            match e
            case Add(x) => s.installations + [x]
            case Remove(id) => if |s.installations| > 1 then Without(s.installations, id) else s.installations
            case _ => s.installations
  {
  }

  lemma ChronicleStep(list: seq<Installation>, events: seq<Event>, e: Event)
    ensures Chronicle(list, events + [e]) ==
            Chronicle(list, events) + if e.Add? then [(e.installation, |events| + 1)] else []
  {
    assert (events + [e])[..|events|] == events;
  }

  /** Every listed installation can be switched to: it becomes the active one, the API layer uses its address, and
      a reload finds it in the list and, unless its id is empty, active. */
  lemma SwitchShows(s: State, x: Installation, baseUrl: string)
    requires Safe(s, baseUrl) && x in s.installations
    ensures var s' := Render(Change(s, Switch(x.id)));
            && Active(s') == x && s'.gateway == x.gatewayBaseUrl && s'.installations == s.installations
            && Reload(s', baseUrl).installations == s.installations
            && (x.id != "" ==> Active(Reload(s', baseUrl)) == x && Reload(s', baseUrl).gateway == x.gatewayBaseUrl)
  {
    var k :| 0 <= k < |s.installations| && s.installations[k] == x;
    var s' := Render(Change(s, Switch(x.id)));
    assert HasId(s.installations, x.id);
    SameId(s.installations, Active(s'), x);
    SameId(s.installations, Active(Reload(s', baseUrl)), x);
  }

  // ------------------------------------------------------------ ids that repeat

  /** No change of the run leaves the list empty, which the next render would not survive. */
  ghost predicate NeverEmpty(s: State, events: seq<Event>)
    requires s.installations != []
    decreases |events|
  {
    events != [] ==>
      && Change(s, events[0]).installations != []
      && NeverEmpty(Render(Change(s, events[0])), events[1..])
  }

  lemma {:induction false} UniqueNeverEmpty(s: State, events: seq<Event>, baseUrl: string)
    requires Safe(s, baseUrl) && Remembered(s) && FreshRun(s, events)
    ensures NeverEmpty(s, events)
    decreases |events|
  {
    if events != [] {
      StepSafe(s, events[0], baseUrl);
      UniqueNeverEmpty(Render(Change(s, events[0])), events[1..], baseUrl);
    }
  }

  lemma {:induction false} AllRemoved(list: seq<Installation>, id: string)
    requires forall k :: 0 <= k < |list| ==> list[k].id == id
    ensures Without(list, id) == []
  {
    if list != [] {
      AllRemoved(list[1..], id);
    }
  }

  lemma WithoutConcat(a: seq<Installation>, b: seq<Installation>, id: string)
    ensures Without(a + b, id) == Without(a, id) + Without(b, id)
  {
    if a == [] {
      assert a + b == b;
    } else {
      assert (a + b)[1..] == a[1..] + b;
      WithoutConcat(a[1..], b, id);
    }
  }

  /** Removing another id keeps two installations with the same id. */
  lemma RepeatStays(list: seq<Installation>, i: nat, j: nat, id: string)
    requires i < j < |list| && list[i].id == list[j].id != id
    ensures |Without(list, id)| > 1 && !UniqueIds(Without(list, id))
  {
    var a, x, b, y, c := list[..i], list[i], list[i + 1..j], list[j], list[j + 1..];
    assert list == a + ([x] + (b + ([y] + c)));
    WithoutConcat(a, [x] + (b + ([y] + c)), id);
    WithoutConcat([x], b + ([y] + c), id);
    WithoutConcat(b, [y] + c, id);
    WithoutConcat([y], c, id);
    assert Without([x], id) == [x] + Without([], id) && Without([y], id) == [y] + Without([], id);
    var r, n := Without(list, id), |Without(a, id)|;
    assert r[n] == x && r[n + 1 + |Without(b, id)|] == y;
  }

  lemma {:induction false} WithoutShorter(list: seq<Installation>, k: nat)
    requires k < |list|
    ensures |Without(list, list[k].id)| < |list|
  {
    if k > 0 {
      assert list[k] == list[1..][k - 1];
      WithoutShorter(list[1..], k - 1);
    }
  }

  /** With a repeated id, removing the other installations first and then that id empties the list. */
  lemma {:induction false} RepeatEmpties(s: State) returns (events: seq<Event>)
    requires s.installations != [] && !UniqueIds(s.installations)
    ensures FreshRun(s, events) && !NeverEmpty(s, events) && forall e :: e in events ==> e.Remove?
    decreases |s.installations|
  {
    var list := s.installations;
    var i, j :| 0 <= i < j < |list| && list[i].id == list[j].id;
    if k :| 0 <= k < |list| && list[k].id != list[i].id {
      RepeatStays(list, i, j, list[k].id);
      WithoutShorter(list, k);
      var rest := RepeatEmpties(Render(Change(s, Remove(list[k].id))));
      events := [Remove(list[k].id)] + rest;
      assert events[1..] == rest;
    } else {
      AllRemoved(list, list[i].id);
      events := [Remove(list[i].id)];
    }
  }

  /** No run ever leaves the list empty, if and only if the stored ids are unique: the guard of the removal
      looks at the number of installations, not at the number of ids. */
  lemma NeverEmptyIff(storedList: Stored, storedActiveId: Option<string>, baseUrl: string)
    ensures var s0 := Init(storedList, storedActiveId, baseUrl);
            (forall events :: FreshRun(s0, events) ==> NeverEmpty(s0, events))
            <==> UniqueIds(LoadInstallations(storedList, baseUrl))
  {
    var s0 := Init(storedList, storedActiveId, baseUrl);
    if UniqueIds(s0.installations) {
      InitSafe(storedList, storedActiveId, baseUrl);
      forall events | FreshRun(s0, events) ensures NeverEmpty(s0, events) {
        UniqueNeverEmpty(s0, events, baseUrl);
      }
    } else {
      var events := RepeatEmpties(s0);
    }
  }

  /** After the repair effect the active id itself names an installation of the list, and that one is unchanged. */
  lemma RepairSettles(s: State, baseUrl: string)
    requires Safe(s, baseUrl)
    ensures var r := Render(Change(s, RepairEffect));
            HasId(r.installations, r.activeId) && Active(r) == Active(s) && r.installations == s.installations
  {
    assert HasId(s.installations, s.installations[0].id);
    SameId(s.installations, Active(Change(s, RepairEffect)), Active(s));
  }

  // ------------------------------------------------------------ the component

  class InstallationProvider {
    var installations: seq<Installation>
    var activeId: string
    var gateway: string
    var storedList: Stored
    var storedActiveId: Option<string>

    function Value(): State
      reads this
    {
      State(installations, activeId, gateway, storedList, storedActiveId)
    }

    constructor (storedList: Stored, storedActiveId: Option<string>, baseUrl: string)
      ensures Value() == Init(storedList, storedActiveId, baseUrl)
    {
      var list := LoadInstallations(storedList, baseUrl);
      this.installations := list;
      this.activeId := InitialActiveId(list, storedActiveId);
      this.gateway := Resolve(list, InitialActiveId(list, storedActiveId)).gatewayBaseUrl;
      this.storedList, this.storedActiveId := storedList, storedActiveId;
    }

    method RenderProvider()
      requires installations != []
      modifies this`gateway
      ensures Value() == Render(old(Value()))
    {
      gateway := Resolve(installations, activeId).gatewayBaseUrl;
    }

    method SwitchInstallation(id: string)
      requires installations != []
      modifies this
      ensures Value() == Render(Change(old(Value()), Event.Switch(id)))
    {
      activeId := id;
      storedActiveId := Some(id);
      RenderProvider();
    }

    method Repair()
      requires installations != []
      modifies this
      ensures Value() == Render(Change(old(Value()), Event.RepairEffect))
    {
      if !HasId(installations, activeId) {
        SwitchInstallation(installations[0].id);
      } else {
        RenderProvider();
      }
    }

    method AddInstallation(freshId: string, name: string, gatewayBaseUrl: string)
      requires installations != []
      modifies this
      ensures Value() == Render(Change(old(Value()), Event.Add(Installation(freshId, name, gatewayBaseUrl))))
    {
      var next := installations + [Installation(freshId, name, gatewayBaseUrl)];
      storedList := Parsed(next);
      installations := next;
      RenderProvider();
    }

    /** `rendered` is false where the removal leaves no installation: the render that follows raises. */
    method RemoveInstallation(id: string) returns (rendered: bool)
      requires installations != []
      modifies this
      ensures var after := Change(old(Value()), Event.Remove(id));
              && (rendered <==> after.installations != [])
              && Value() == if rendered then Render(after) else after
    {
      if |installations| > 1 {
        var next := Without(installations, id);
        storedList := Parsed(next);
        installations := next;
      }
      rendered := installations != [];
      if rendered {
        RenderProvider();
      }
    }
  }
}
