/** The agent's chains and traffic limiters: a registry and a configuration list each,
    edited one entry at a time (go-gost/x/socket/chain.go, limiter.go). */
module AgentChains {
  import opened Text
  import opened Settings

  datatype Entry = Entry(name: string, content: Content)
  datatype Store = Store(registry: map<string, Entry>, list: seq<Entry>)
  datatype StoreError = NameRequired | AlreadyExists | ParseFailed | NotFound
  datatype StoreOutcome = StoreOutcome(error: Option<StoreError>, store: Store)

  const EMPTY_STORE := Store(map[], [])

  function Position(list: seq<Entry>, name: string): (k: nat)
    ensures k <= |list|
    ensures k < |list| ==> list[k].name == name
    ensures forall i :: 0 <= i < k ==> list[i].name != name
  {
    if list == [] || list[0].name == name then 0 else 1 + Position(list[1..], name)
  }

  function Replaced(list: seq<Entry>, e: Entry): seq<Entry> {
    var k := Position(list, e.name);
    if k < |list| then list[k := e] else list
  }

  function Removed(list: seq<Entry>, name: string): seq<Entry> {
    if list == [] then []
    else
      var init := Removed(list[..|list| - 1], name);
      if list[|list| - 1].name == name then init else init + [list[|list| - 1]]
  }

  function Create(s: Store, e: Entry, parses: bool): StoreOutcome {
    var stored := e.(name := Trim(e.name));
    if stored.name == "" then StoreOutcome(Some(NameRequired), s)
    else if stored.name in s.registry then StoreOutcome(Some(AlreadyExists), s)
    else if !parses then StoreOutcome(Some(ParseFailed), s)
    else StoreOutcome(None, Store(s.registry[stored.name := stored], s.list + [stored]))
  }

  // The new configuration is parsed before the old entry is unregistered.
  function Update(s: Store, e: Entry, parses: bool): StoreOutcome {
    var stored := e.(name := Trim(e.name));
    if stored.name !in s.registry then StoreOutcome(Some(NotFound), s)
    else if !parses then StoreOutcome(Some(ParseFailed), s)
    else StoreOutcome(None, Store(s.registry[stored.name := stored], Replaced(s.list, stored)))
  }

  function Delete(s: Store, name: string): StoreOutcome {
    if Trim(name) !in s.registry then StoreOutcome(Some(NotFound), s)
    else StoreOutcome(None, Store(s.registry - {Trim(name)}, Removed(s.list, Trim(name))))
  }

  // The panel's SyncChainAsync: update, and add when the chain is not there.
  function Sync(s: Store, e: Entry, parses: bool): StoreOutcome {
    var r := Update(s, e, parses);
    if r.error == Some(NotFound) then Create(s, e, parses) else r
  }

  // The panel's limiter helpers: add, and update when adding fails.
  function Ensure(s: Store, e: Entry): StoreOutcome {
    var r := Create(s, e, true);
    if r.error.Some? then Update(s, e, true) else r
  }

  ghost predicate Matches(s: Store) {
    && (forall i, j :: 0 <= i < j < |s.list| ==> s.list[i].name != s.list[j].name)
    && (forall n :: n in s.registry <==> Position(s.list, n) < |s.list|)
    && (forall i :: 0 <= i < |s.list| ==> s.list[i].name in s.registry && s.registry[s.list[i].name] == s.list[i])
    && "" !in s.registry
  }

  // Unlike services, a refused chain command leaves both stores as they were, whatever
  // the state: create, update, delete and the two-step sync are all or nothing.
  lemma AllOrNothing(s: Store, e: Entry, parses: bool)
    ensures Create(s, e, parses).error.Some? ==> Create(s, e, parses).store == s
    ensures Update(s, e, parses).error.Some? ==> Update(s, e, parses).store == s
    ensures Delete(s, e.name).error.Some? ==> Delete(s, e.name).store == s
    ensures Sync(s, e, parses).error.Some? ==> Sync(s, e, parses).store == s
  {
  }

  lemma PositionSame(s: seq<Entry>, t: seq<Entry>, n: string)
    requires |s| == |t| && forall i :: 0 <= i < |s| ==> s[i].name == t[i].name
    ensures Position(s, n) == Position(t, n)
  {
  }

  lemma {:induction false} RemovedAbsent(list: seq<Entry>, name: string)
    requires forall i :: 0 <= i < |list| ==> list[i].name != name
    ensures Removed(list, name) == list
  {
    if list != [] {
      RemovedAbsent(list[..|list| - 1], name);
      assert list == list[..|list| - 1] + [list[|list| - 1]];
    }
  }

  lemma {:induction false} RemovedMembers(list: seq<Entry>, name: string)
    requires forall i, j :: 0 <= i < j < |list| ==> list[i].name != list[j].name
    ensures forall e :: e in Removed(list, name) <==> e in list && e.name != name
    ensures forall i, j :: 0 <= i < j < |Removed(list, name)| ==> Removed(list, name)[i].name != Removed(list, name)[j].name
  {
    if list != [] {
      var k := |list| - 1;
      RemovedMembers(list[..k], name);
      assert list == list[..k] + [list[k]];
      var init := Removed(list[..k], name);
      assert forall i :: 0 <= i < |init| ==> init[i] in list[..k];
    }
  }

  lemma MatchedBy(s: Store)
    requires forall i, j :: 0 <= i < j < |s.list| ==> s.list[i].name != s.list[j].name
    requires forall e :: e in s.list ==> e.name in s.registry && s.registry[e.name] == e
    requires forall n :: n in s.registry ==> n != "" && s.registry[n] in s.list && s.registry[n].name == n
    ensures Matches(s)
  {
  }

  lemma MatchesMeans(s: Store)
    requires Matches(s)
    ensures forall e :: e in s.list ==> e.name in s.registry && s.registry[e.name] == e
    ensures forall n :: n in s.registry ==> n != "" && s.registry[n] in s.list && s.registry[n].name == n
  {
  }

  // Every command keeps registry and list in step, with the same entries in both.
  lemma CommandsKeepMatch(s: Store, e: Entry, parses: bool)
    requires Matches(s)
    ensures Matches(Create(s, e, parses).store)
    ensures Matches(Update(s, e, parses).store)
    ensures Matches(Delete(s, e.name).store)
  {
    var d := e.(name := Trim(e.name));
    if Create(s, e, parses).error.None? { AddMatches(s, d); }
    if Update(s, e, parses).error.None? { ReplaceMatches(s, d); }
    if Delete(s, e.name).error.None? { RemoveMatches(s, d.name); }
  }

  lemma AddMatches(s: Store, d: Entry)
    requires Matches(s) && d.name != "" && d.name !in s.registry
    ensures Matches(Store(s.registry[d.name := d], s.list + [d]))
  {
    MatchesMeans(s);
    forall i | 0 <= i < |s.list| ensures s.list[i].name != d.name { assert s.list[i] in s.list; }
    MatchedBy(Store(s.registry[d.name := d], s.list + [d]));
  }

  lemma ReplaceMatches(s: Store, d: Entry)
    requires Matches(s) && d.name in s.registry
    ensures Matches(Store(s.registry[d.name := d], Replaced(s.list, d)))
  {
    var k := Position(s.list, d.name);
    var t := Store(s.registry[d.name := d], s.list[k := d]);
    forall n ensures n in t.registry <==> Position(t.list, n) < |t.list| { PositionSame(s.list, t.list, n); }
    forall i | 0 <= i < |t.list| ensures t.list[i].name in t.registry && t.registry[t.list[i].name] == t.list[i] {
      if i != k { assert s.list[i].name != s.list[k].name; }
    }
  }

  lemma RemoveMatches(s: Store, n: string)
    requires Matches(s)
    ensures Matches(Store(s.registry - {n}, Removed(s.list, n)))
  {
    MatchesMeans(s);
    RemovedMembers(s.list, n);
    MatchedBy(Store(s.registry - {n}, Removed(s.list, n)));
  }

  // Adding a chain whose name is free and deleting it again gives back the same store,
  // whether or not the addition succeeded.
  lemma AttemptThenDelete(s: Store, e: Entry, parses: bool)
    requires Matches(s) && Trim(e.name) !in s.registry
    ensures Delete(Create(s, e, parses).store, e.name).store == s
  {
    AddThenRemove(s, e.(name := Trim(e.name)));
  }

  lemma AddThenRemove(s: Store, d: Entry)
    requires Matches(s) && d.name !in s.registry
    ensures s.registry[d.name := d] - {d.name} == s.registry && Removed(s.list + [d], d.name) == s.list
  {
    forall i | 0 <= i < |s.list| ensures s.list[i].name != d.name { assert s.list[i].name in s.registry; }
    RemovedAbsent(s.list, d.name);
    assert (s.list + [d])[..|s.list|] == s.list;
  }

  function Placed(s: Store, d: Entry): Store {
    Store(s.registry[d.name := d], if d.name in s.registry then Replaced(s.list, d) else s.list + [d])
  }

  lemma SyncIsPlaced(s: Store, e: Entry, parses: bool)
    requires Trim(e.name) != ""
    ensures Sync(s, e, parses).error.None? <==> parses
    ensures parses ==> Sync(s, e, parses).store == Placed(s, e.(name := Trim(e.name)))
  {
  }

  lemma PlacedTwice(s: Store, d: Entry)
    requires Matches(s) && d.name != ""
    ensures Matches(Placed(s, d)) && Placed(Placed(s, d), d) == Placed(s, d)
  {
    if d.name in s.registry { ReplaceMatches(s, d); } else { AddMatches(s, d); }
    PlacedAgain(Placed(s, d), d);
  }

  lemma PlacedAgain(t: Store, d: Entry)
    requires Matches(t) && d.name in t.registry && t.registry[d.name] == d
    ensures Placed(t, d) == t
  {
  }

  // A sync succeeds exactly when the chain parses; it then makes the entry current under
  // its name, touches no other name, and a second one changes nothing.
  lemma SyncSets(s: Store, e: Entry, parses: bool)
    requires Matches(s) && Trim(e.name) != ""
    ensures Sync(s, e, parses).error.None? <==> parses
    ensures parses ==> Matches(Sync(s, e, parses).store)
                       && Sync(s, e, parses).store.registry == s.registry[Trim(e.name) := e.(name := Trim(e.name))]
                       && Sync(Sync(s, e, parses).store, e, parses).store == Sync(s, e, parses).store
  {
    SyncIsPlaced(s, e, parses);
    if parses {
      SyncIsPlaced(Placed(s, e.(name := Trim(e.name))), e, parses);
      PlacedTwice(s, e.(name := Trim(e.name)));
    }
  }

  // Ensuring a limiter twice is ensuring it once.
  lemma EnsureTwice(s: Store, e: Entry)
    requires Matches(s) && Trim(e.name) != ""
    ensures var once := Ensure(s, e);
            once.error.None? && once.store == Placed(s, e.(name := Trim(e.name))) && Ensure(once.store, e) == once
  {
    PlacedTwice(s, e.(name := Trim(e.name)));
  }

  class ChainServer {
    var registry: map<string, Entry>
    var list: seq<Entry>

    ghost function State(): Store
      reads this
    {
      Store(registry, list)
    }

    constructor ()
      ensures State() == EMPTY_STORE
    {
      registry, list := map[], [];
    }

    method CreateChain(e: Entry, parses: bool) returns (error: Option<StoreError>)
      modifies this
      ensures StoreOutcome(error, State()) == Create(old(State()), e, parses)
    {
      var name := Trim(e.name);
      if name == "" { return Some(NameRequired); }
      if name in registry { return Some(AlreadyExists); }
      if !parses { return Some(ParseFailed); }
      registry := registry[name := e.(name := name)];
      list := list + [e.(name := name)];
      error := None;
    }

    method UpdateChain(e: Entry, parses: bool) returns (error: Option<StoreError>)
      modifies this
      ensures StoreOutcome(error, State()) == Update(old(State()), e, parses)
    {
      var name := Trim(e.name);
      if name !in registry { return Some(NotFound); }
      if !parses { return Some(ParseFailed); }
      registry := registry - {name};
      registry := registry[name := e.(name := name)];
      assert registry == old(registry)[name := e.(name := name)];
      var k := 0;
      while k < |list|
        invariant k <= |list| && list == old(list) && forall i :: 0 <= i < k ==> list[i].name != name
      {
        if list[k].name == name { break; }
        k := k + 1;
      }
      if k < |list| { list := list[k := e.(name := name)]; }
      error := None;
    }

    method DeleteChain(name: string) returns (error: Option<StoreError>)
      modifies this
      ensures StoreOutcome(error, State()) == Delete(old(State()), name)
    {
      var n := Trim(name);
      if n !in registry { return Some(NotFound); }
      registry := registry - {n};
      var kept: seq<Entry> := [];
      for i := 0 to |list|
        invariant list == old(list) && kept == Removed(list[..i], n)
      {
        assert list[..i + 1][..i] == list[..i];
        if list[i].name != n { kept := kept + [list[i]]; }
      }
      assert list[..|list|] == list;
      list := kept;
      error := None;
    }
  }
}
