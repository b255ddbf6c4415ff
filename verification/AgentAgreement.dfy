/** The registry and the configuration list agree after every command, over every run. */
module AgentAgreement {
  import opened Text
  import opened AgentTables

  // ---- one service at a time ----

  lemma CloseLive(a: Agent, n: string)
    requires LiveSide(a)
    ensures LiveSide(CloseName(a, n))
    ensures forall m :: m in a.registry ==> (Serves(CloseName(a, n), m) <==> Serves(a, m) && m != n)
  {
  }

  lemma DropLive(a: Agent, n: string)
    requires LiveSide(a)
    ensures LiveSide(Drop(a, n))
    ensures forall m :: m != n ==> (m in Drop(a, n).registry <==> m in a.registry) && (Serves(Drop(a, n), m) <==> Serves(a, m))
    ensures n !in Drop(a, n).registry
  {
    var b := Drop(a, n);
    forall h | h in b.serving ensures exists m :: m in b.registry && b.registry[m] == h {
      var m :| m in a.registry && a.registry[m] == h;
      assert m in b.registry && b.registry[m] == h;
    }
  }

  lemma LaunchLive(a: Agent, n: string)
    requires LiveSide(a) && n !in a.registry && n != ""
    ensures LiveSide(Launch(a, n)) && Serves(Launch(a, n), n)
    ensures forall m :: m != n ==> (m in Launch(a, n).registry <==> m in a.registry) && (Serves(Launch(a, n), m) <==> Serves(a, m))
  {
    var b := Launch(a, n);
    assert forall h :: h in a.serving ==> h < a.next;
    forall h | h in b.serving ensures exists m :: m in b.registry && b.registry[m] == h {
      if h == a.next {
        assert b.registry[n] == h;
      } else {
        var m :| m in a.registry && a.registry[m] == h;
        assert m in b.registry && b.registry[m] == h;
      }
    }
  }

  lemma AddKeeps(a: Agent, c: ServiceConfig)
    requires Agree(a) && c.name !in a.registry && c.name != "" && !Paused(c)
    ensures Agree(Launch(a, c.name).(services := a.services + [c]))
  {
    var b := Launch(a, c.name).(services := a.services + [c]);
    LaunchLive(a, c.name);
    assert NamesOf(b.services) == NamesOf(a.services) + [c.name];
    assert SameNamesInBoth(b) by {
      forall i | 0 <= i < |a.services| ensures a.services[i].name != c.name { assert NamesOf(a.services)[i] in NamesOf(a.services); }
    }
    assert FlagsMatch(b) by {
      forall i | 0 <= i < |b.services| ensures Serves(b, b.services[i].name) <==> !Paused(b.services[i]) {
        if i < |a.services| {
          assert b.services[i] == a.services[i];
          assert NamesOf(a.services)[i] in NamesOf(a.services);
        }
      }
    }
  }

  // Editing one configuration in place, when the live side follows.
  lemma EditKeeps(a: Agent, b: Agent, k: nat)
    requires Agree(a) && LiveSide(b) && k < |a.services| == |b.services|
    requires b.services[k].name == a.services[k].name && b.services == a.services[k := b.services[k]]
    requires forall m :: m in b.registry <==> m in a.registry
    requires forall m :: m in a.registry && m != a.services[k].name ==> (Serves(b, m) <==> Serves(a, m))
    requires Serves(b, a.services[k].name) <==> !Paused(b.services[k])
    ensures Agree(b)
  {
    assert NamesOf(b.services) == NamesOf(a.services);
    assert FlagsMatch(b) by {
      forall i | 0 <= i < |b.services| ensures Serves(b, b.services[i].name) <==> !Paused(b.services[i]) {
        assert NamesOf(a.services)[i] in NamesOf(a.services);
        if i != k { assert a.services[i].name != a.services[k].name; }
      }
    }
  }

  // Closing an instance and putting a fresh one in its place, with a configuration of the
  // same name that is not marked as paused.
  lemma RestartKeeps(a: Agent, k: nat, c: ServiceConfig)
    requires Agree(a) && k < |a.services| && c.name == a.services[k].name && !Paused(c)
    ensures Agree(Launch(Drop(a, c.name), c.name).(services := a.services[k := c]))
  {
    var live := Launch(Drop(a, c.name), c.name);
    assert NamesOf(a.services)[k] == c.name;
    assert c.name in a.registry;
    DropLive(a, c.name);
    LaunchLive(Drop(a, c.name), c.name);
    var b := live.(services := a.services[k := c]);
    forall m ensures Serves(b, m) <==> Serves(live, m) {}
    EditKeeps(a, b, k);
  }

  lemma PauseKeeps(a: Agent, n: string)
    requires Agree(a) && n in a.registry
    ensures Agree(CloseName(a, n).(services := MarkFirst(a.services, n)))
    ensures Listed(a.services, n)
  {
    ListedByName(a.services, n);
    CloseLive(a, n);
    var k := IndexOf(a.services, n);
    var b := CloseName(a, n).(services := MarkFirst(a.services, n));
    forall m ensures Serves(b, m) <==> Serves(CloseName(a, n), m) {}
    EditKeeps(a, b, k);
  }

  // ---- createServices ----

  lemma {:induction false} LaunchAllFrame(a: Agent, names: seq<string>, n: string)
    requires n !in a.registry && n !in names
    ensures LaunchAll(a, names).services == a.services && n !in LaunchAll(a, names).registry
  {
    if names != [] { LaunchAllFrame(a, names[..|names| - 1], n); }
  }

  predicate FreshService(a: Agent, c: ServiceConfig) { c.name != "" && c.name !in a.registry && !Paused(c) }

  function AddAll(a: Agent, data: seq<ServiceConfig>): Agent {
    LaunchAll(a, NamesOf(data)).(services := a.services + data)
  }

  lemma AddAllStep(a: Agent, data: seq<ServiceConfig>, c: ServiceConfig)
    requires FreshService(a, c) && c.name !in NamesOf(data)
    ensures FreshService(AddAll(a, data), c)
    ensures AddAll(a, data + [c]) == Launch(AddAll(a, data), c.name).(services := AddAll(a, data).services + [c])
  {
    LaunchAllFrame(a, NamesOf(data), c.name);
    assert NamesOf(data + [c])[..|data|] == NamesOf(data);
    assert a.services + (data + [c]) == a.services + data + [c];
  }

  lemma {:induction false} AddAllKeeps(a: Agent, data: seq<ServiceConfig>)
    requires Agree(a) && Distinct(data)
    requires forall i :: 0 <= i < |data| ==> FreshService(a, data[i])
    ensures Agree(AddAll(a, data))
  {
    if data == [] {
      assert a.services + data == a.services;
    } else {
      var k := |data| - 1;
      AddAllKeeps(a, data[..k]);
      assert data[k].name !in NamesOf(data[..k]);
      AddAllStep(a, data[..k], data[k]);
      AddKeeps(AddAll(a, data[..k]), data[k]);
      assert data[..k] + [data[k]] == data;
    }
  }

  lemma {:induction false} NotRefused(registry: map<string, Handle>, names: seq<string>, wanted: bool, parses: Parses, i: nat)
    requires Refusal(registry, names, wanted, parses, i).None?
    ensures forall j :: i <= j < |names| ==> names[j] != "" && (names[j] in registry <==> wanted) && parses(j)
    decreases |names| - i
  {
    if i < |names| { NotRefused(registry, names, wanted, parses, i + 1); }
  }

  lemma CreateKeeps(a: Agent, data: seq<ServiceConfig>, parses: Parses)
    requires Agree(a)
    requires forall i :: 0 <= i < |data| ==> !Paused(data[i])
    ensures Agree(Create(a, data, parses).agent)
  {
    var names := TrimAll(NamesOf(data));
    if data != [] && Refusal(a.registry, names, false, parses, 0).None? && FirstRepeat(names, 0) == |names| {
      NotRefused(a.registry, names, false, parses, 0);
      assert NamesOf(Stored(data)) == names;
      AddAllKeeps(a, Stored(data));
    }
  }

  // createServices is all or nothing: it is refused exactly for an empty request, a blank,
  // registered or repeated name, or a failed parse, and then neither store changes and
  // nothing starts or stops serving.
  lemma CreateAllOrNothing(a: Agent, data: seq<ServiceConfig>, parses: Parses)
    ensures Create(a, data, parses).error.Some? ==> Create(a, data, parses).agent == a.(next := Create(a, data, parses).agent.next)
    ensures var names := TrimAll(NamesOf(data));
            Create(a, data, parses).error.Some? <==>
              || data == []
              || (exists i :: 0 <= i < |names| && (names[i] == "" || names[i] in a.registry || !parses(i)))
              || (exists i, j :: 0 <= i < j < |names| && names[i] == names[j])
  {
    var names := TrimAll(NamesOf(data));
    if Refusal(a.registry, names, false, parses, 0).None? {
      NotRefused(a.registry, names, false, parses, 0);
      var k := FirstRepeat(names, 0);
      if k < |names| {
        var i :| 0 <= i < k && names[..k][i] == names[k];
        assert names[i] == names[k];
      }
    } else {
      var j := RefusedAt(a.registry, names, false, parses, 0);
    }
  }

  // deleteServices is all or nothing: one missing name refuses the whole list.
  lemma DeleteAllOrNothing(a: Agent, services: seq<string>)
    ensures Delete(a, services).error.Some? ==> Delete(a, services).agent == a
    ensures Delete(a, services).error.Some? <==>
            services == [] || exists i :: 0 <= i < |services| && (Trim(services[i]) == "" || Trim(services[i]) !in a.registry)
  {
    var names := TrimAll(services);
    if Refusal(a.registry, names, true, ALL_PARSE, 0).None? {
      NotRefused(a.registry, names, true, ALL_PARSE, 0);
    } else {
      var j := RefusedAt(a.registry, names, true, ALL_PARSE, 0);
      assert Trim(services[j]) == names[j];
    }
  }

  lemma {:induction false} RefusedAt(registry: map<string, Handle>, names: seq<string>, wanted: bool, parses: Parses, i: nat) returns (j: nat)
    requires Refusal(registry, names, wanted, parses, i).Some?
    ensures i <= j < |names| && (names[j] == "" || (names[j] in registry <==> !wanted) || !parses(j))
    decreases |names| - i
  {
    if names[i] == "" || (names[i] in registry <==> !wanted) || !parses(i) {
      j := i;
    } else {
      j := RefusedAt(registry, names, wanted, parses, i + 1);
    }
  }

  // ---- updateServices ----

  lemma RestartFrame(a: Agent, names: seq<string>, parses: Parses, i: nat)
    ensures Restart(a, names, parses, i).agent.services == a.services
    decreases |names| - i
  {
    if i < |names| && parses(i) { RestartFrame(Launch(Drop(a, names[i]), names[i]), names, parses, i + 1); }
  }

  // The configuration list does not influence the restarts.
  lemma {:induction false} RestartIgnoresList(a: Agent, s: seq<ServiceConfig>, names: seq<string>, parses: Parses, i: nat)
    ensures Restart(a.(services := s), names, parses, i).agent == Restart(a, names, parses, i).agent.(services := s)
    ensures Restart(a.(services := s), names, parses, i).error == Restart(a, names, parses, i).error
    decreases |names| - i
  {
    if i < |names| && parses(i) { RestartIgnoresList(Launch(Drop(a, names[i]), names[i]), s, names, parses, i + 1); }
  }

  // Restarting all services and then replacing all configurations, from the i-th on, when
  // the list already carries the first i replacements.
  lemma {:induction false} UpdateAllKeeps(a: Agent, base: seq<ServiceConfig>, data: seq<ServiceConfig>, names: seq<string>, parses: Parses, i: nat)
    requires i <= |data| == |names|
    requires Agree(a) && a.services == ReplaceAll(base, data[..i])
    requires forall j :: 0 <= j < |data| ==> data[j].name == names[j] && names[j] in a.registry && !Paused(data[j])
    requires Restart(a, names, parses, i).error.None?
    ensures Agree(Restart(a, names, parses, i).agent.(services := ReplaceAll(base, data)))
    decreases |data| - i
  {
    if i == |data| {
      assert data[..i] == data;
    } else {
      var k := IndexOf(a.services, names[i]);
      ListedByName(a.services, names[i]);
      RestartKeeps(a, k, data[i]);
      assert data[..i + 1][..i] == data[..i];
      var live := Launch(Drop(a, names[i]), names[i]);
      var b := live.(services := a.services[k := data[i]]);
      RestartIgnoresList(live, b.services, names, parses, i + 1);
      UpdateAllKeeps(b, base, data, names, parses, i + 1);
    }
  }

  // A failed parse leaves the service out of the registry but in the list.
  lemma {:induction false} RestartFailureLosesName(a: Agent, names: seq<string>, parses: Parses, i: nat)
    requires Restart(a, names, parses, i).error.Some?
    ensures exists j :: i <= j < |names| && names[j] !in Restart(a, names, parses, i).agent.registry
    decreases |names| - i
  {
    if parses(i) { RestartFailureLosesName(Launch(Drop(a, names[i]), names[i]), names, parses, i + 1); }
  }

  lemma {:induction false} RestartFails(a: Agent, names: seq<string>, parses: Parses, i: nat)
    ensures Restart(a, names, parses, i).error.None? <==> forall j :: i <= j < |names| ==> parses(j)
    decreases |names| - i
  {
    if i < |names| && parses(i) {
      RestartFails(Launch(Drop(a, names[i]), names[i]), names, parses, i + 1);
    }
  }

  predicate CleanRequest(data: seq<ServiceConfig>) {
    forall i :: 0 <= i < |data| ==> Trim(data[i].name) == data[i].name && !Paused(data[i])
  }

  // An update of trimmed, unpaused configurations keeps the agreement exactly when it is
  // refused before it starts or every re-parse succeeds.
  lemma UpdateKeepsExactly(a: Agent, data: seq<ServiceConfig>, parses: Parses)
    requires Agree(a) && CleanRequest(data)
    ensures Agree(Update(a, data, parses).agent) <==>
            || (exists i :: 0 <= i < |data| && data[i].name !in a.registry)
            || (forall i :: 0 <= i < |data| ==> parses(i))
  {
    var names := TrimAll(NamesOf(data));
    if data != [] {
      if Refusal(a.registry, names, true, ALL_PARSE, 0).None? {
        NotRefused(a.registry, names, true, ALL_PARSE, 0);
        RestartFails(a, names, parses, 0);
        assert forall i :: 0 <= i < |data| ==> names[i] == data[i].name;
        if Restart(a, names, parses, 0).error.None? {
          UpdateAllKeeps(a, a.services, data, names, parses, 0);
        } else {
          RestartFailureLosesName(a, names, parses, 0);
          RestartFrame(a, names, parses, 0);
          var j :| 0 <= j < |names| && names[j] !in Restart(a, names, parses, 0).agent.registry;
          assert names[j] in NamesOf(a.services);
        }
      } else {
        var j := RefusedAt(a.registry, names, true, ALL_PARSE, 0);
        assert data[j].name !in a.registry;
      }
    }
  }

  // ---- syncServices ----

  lemma UpdateOne(a: Agent, c: ServiceConfig, parses: Parses)
    requires Trim(c.name) == c.name != "" && c.name in a.registry && parses(0)
    ensures Update(a, [c], parses) == Outcome(None, Launch(Drop(a, c.name), c.name).(services := ReplaceFirst(a.services, c)))
  {
    var names := TrimAll(NamesOf([c]));
    assert names == [c.name];
    assert [c][..0] == [];
    assert Refusal(a.registry, names, true, ALL_PARSE, 1).None?;
    assert Restart(Launch(Drop(a, c.name), c.name), names, parses, 1).error.None?;
    assert ReplaceAll(a.services, [c]) == ReplaceFirst(a.services, c);
  }

  lemma CreateOne(a: Agent, c: ServiceConfig, parses: Parses)
    requires Trim(c.name) == c.name != "" && c.name !in a.registry && parses(0)
    ensures Create(a, [c], parses) == Outcome(None, Launch(a, c.name).(services := a.services + [c]))
  {
    var names := TrimAll(NamesOf([c]));
    assert names == [c.name];
    assert names[..0] == [];
    assert Refusal(a.registry, names, false, parses, 1).None?;
    assert FirstRepeat(names, 1) == 1;
    assert LaunchAll(a, names[..0]) == a;
    assert LaunchAll(a, names) == Launch(a, c.name);
    assert Stored([c]) == [c];
  }

  // The effect of one synchronised configuration when its parse succeeds.
  function Put(a: Agent, c: ServiceConfig): Agent {
    if c.name in a.registry then Launch(Drop(a, c.name), c.name).(services := ReplaceFirst(a.services, c))
    else Launch(a, c.name).(services := a.services + [c])
  }

  lemma SyncOneSucceeds(a: Agent, c: ServiceConfig)
    requires Trim(c.name) != ""
    ensures SyncOne(a, c, true) == Outcome(None, Put(a, c.(name := Trim(c.name))))
  {
    var d := c.(name := Trim(c.name));
    TrimIdempotent(c.name);
    if d.name in a.registry { UpdateOne(a, d, Always(true)); } else { CreateOne(a, d, Always(true)); }
  }

  lemma PutKeeps(a: Agent, c: ServiceConfig)
    requires Agree(a) && c.name != "" && !Paused(c)
    ensures Agree(Put(a, c))
  {
    ListedByName(a.services, c.name);
    if c.name in a.registry { RestartKeeps(a, IndexOf(a.services, c.name), c); } else { AddKeeps(a, c); }
  }

  // A failed parse during a sync of a name that is not registered is refused cleanly;
  // on a registered name it loses the instance.
  lemma SyncOneKeeps(a: Agent, c: ServiceConfig, parses: bool)
    requires Agree(a) && !Paused(c)
    requires !parses ==> Trim(c.name) !in a.registry
    ensures Agree(SyncOne(a, c, parses).agent)
  {
    if Trim(c.name) != "" {
      var d := c.(name := Trim(c.name));
      if parses {
        SyncOneSucceeds(a, c);
        PutKeeps(a, d);
      } else {
        assert !Paused(d);
        CreateKeeps(a, [d], Always(parses));
      }
    }
  }

  // Position i of a sync request is reached: everything before it succeeded.
  predicate Reached(data: seq<ServiceConfig>, parses: Parses, i: nat) {
    i <= |data| && forall j :: 0 <= j < i ==> parses(j) && Trim(data[j].name) != ""
  }

  predicate NamedBefore(stored: seq<ServiceConfig>, i: nat, n: string) {
    i <= |stored| && n in NamesOf(stored)[..i]
  }

  // A sync destroys an instance when it reaches a failing parse of a service that was
  // registered before, or by an earlier entry of the same request.
  predicate SyncLosesAt(a: Agent, data: seq<ServiceConfig>, parses: Parses, i: nat) {
    && i < |data| && !parses(i) && Reached(data, parses, i)
    && (Trim(data[i].name) in a.registry || (Trim(data[i].name) != "" && NamedBefore(Stored(data), i, Trim(data[i].name))))
  }

  function PutAll(a: Agent, stored: seq<ServiceConfig>, n: nat): Agent
    requires n <= |stored|
  {
    if n == 0 then a else Put(PutAll(a, stored, n - 1), stored[n - 1])
  }

  lemma {:induction false} PutAllRegisters(a: Agent, stored: seq<ServiceConfig>, n: nat, m: string)
    requires n <= |stored|
    ensures m in PutAll(a, stored, n).registry <==> m in a.registry || NamedBefore(stored, n, m)
  {
    if n > 0 {
      PutAllRegisters(a, stored, n - 1, m);
      NamedNext(stored, n, m);
      PutRegisters(PutAll(a, stored, n - 1), stored[n - 1], m);
    }
  }

  lemma NamedNext(stored: seq<ServiceConfig>, n: nat, m: string)
    requires 0 < n <= |stored|
    ensures NamedBefore(stored, n, m) <==> NamedBefore(stored, n - 1, m) || m == stored[n - 1].name
  {
  }

  lemma PutRegisters(a: Agent, c: ServiceConfig, m: string)
    ensures m in Put(a, c).registry <==> m in a.registry || m == c.name
  {
  }

  lemma {:induction false} PutAllKeeps(a: Agent, stored: seq<ServiceConfig>, n: nat)
    requires Agree(a) && n <= |stored|
    requires forall j :: 0 <= j < n ==> stored[j].name != "" && !Paused(stored[j])
    ensures Agree(PutAll(a, stored, n))
  {
    if n > 0 {
      PutAllKeeps(a, stored, n - 1);
      PutKeeps(PutAll(a, stored, n - 1), stored[n - 1]);
    }
  }

  lemma SyncStep(a: Agent, data: seq<ServiceConfig>, parses: Parses, i: nat)
    requires i < |data| && parses(i) && Trim(data[i].name) != ""
    ensures SyncFrom(a, data, parses, i) == SyncFrom(Put(a, Stored(data)[i]), data, parses, i + 1)
  {
    SyncOneSucceeds(a, data[i]);
  }

  lemma {:induction false} SyncReaches(a: Agent, data: seq<ServiceConfig>, parses: Parses, n: nat)
    requires n <= |data| && Reached(data, parses, n)
    ensures SyncFrom(a, data, parses, 0) == SyncFrom(PutAll(a, Stored(data), n), data, parses, n)
  {
    if n > 0 {
      SyncReaches(a, data, parses, n - 1);
      SyncStep(PutAll(a, Stored(data), n - 1), data, parses, n - 1);
    }
  }

  lemma {:induction false} FirstStop(data: seq<ServiceConfig>, parses: Parses, i: nat) returns (n: nat)
    requires i <= |data| && Reached(data, parses, i)
    ensures i <= n <= |data| && Reached(data, parses, n)
    ensures n < |data| ==> !parses(n) || Trim(data[n].name) == ""
    decreases |data| - i
  {
    if i < |data| && parses(i) && Trim(data[i].name) != "" {
      n := FirstStop(data, parses, i + 1);
    } else {
      n := i;
    }
  }

  lemma FailedUpdateOneDisagrees(a: Agent, c: ServiceConfig)
    requires Agree(a) && Trim(c.name) in a.registry && !Paused(c)
    ensures !Agree(SyncOne(a, c, false).agent)
  {
    TrimIdempotent(c.name);
    var d := c.(name := Trim(c.name));
    UpdateKeepsExactly(a, [d], Always(false));
    assert !(forall i :: 0 <= i < |[d]| ==> Always(false)(i)) by { assert !Always(false)(0); }
    assert forall i :: 0 <= i < |[d]| ==> [d][i].name in a.registry;
    assert SyncOne(a, c, false) == Update(a, [d], Always(false));
  }

  // A sync keeps the agreement exactly when it does not reach such a failing parse.
  lemma SyncKeepsExactly(a: Agent, data: seq<ServiceConfig>, parses: Parses)
    requires Agree(a) && forall j :: 0 <= j < |data| ==> !Paused(data[j])
    ensures Agree(Sync(a, data, parses).agent) <==> !exists i :: SyncLosesAt(a, data, parses, i)
  {
    if data != [] {
      var n := FirstStop(data, parses, 0);
      SyncReaches(a, data, parses, n);
      PutAllKeeps(a, Stored(data), n);
      assert forall i :: SyncLosesAt(a, data, parses, i) ==> i == n;
      if n < |data| {
        var b := PutAll(a, Stored(data), n);
        PutAllRegisters(a, Stored(data), n, Trim(data[n].name));
        if Trim(data[n].name) in b.registry && !parses(n) {
          FailedUpdateOneDisagrees(b, data[n]);
          assert SyncLosesAt(a, data, parses, n);
        } else {
          SyncOneKeeps(b, data[n], parses(n));
          SyncOneStops(b, data[n], parses(n));
          assert !SyncLosesAt(a, data, parses, n);
        }
      }
    }
  }

  lemma SyncOneStops(a: Agent, c: ServiceConfig, parses: bool)
    requires Trim(c.name) == "" || !parses
    ensures SyncOne(a, c, parses).error.Some?
  {
  }

  // ---- deleteServices ----

  lemma {:induction false} WithoutIs(services: seq<ServiceConfig>, names: seq<string>)
    requires Distinct(services)
    ensures Distinct(Without(services, names))
    ensures forall c :: c in Without(services, names) <==> c in services && c.name !in names
  {
    if services != [] {
      var k := |services| - 1;
      WithoutIs(services[..k], names);
      assert services == services[..k] + [services[k]];
      var init := Without(services[..k], names);
      assert forall i :: 0 <= i < |init| ==> init[i] in services[..k];
    }
  }

  lemma DropAllLive(a: Agent, names: seq<string>)
    requires LiveSide(a)
    ensures LiveSide(DropAll(a, names))
    ensures forall m :: m !in names ==> (Serves(DropAll(a, names), m) <==> Serves(a, m))
    ensures forall m :: m in DropAll(a, names).registry <==> m in a.registry && m !in names
  {
    if names != [] {
      var init, last := names[..|names| - 1], names[|names| - 1];
      DropAllLive(a, init);
      DropLive(DropAll(a, init), last);
      assert names == init + [last];
    }
  }

  lemma RemoveKeeps(a: Agent, names: seq<string>)
    requires Agree(a)
    ensures Agree(DropAll(a, names).(services := Without(a.services, names)))
  {
    var live := DropAll(a, names);
    var b := live.(services := Without(a.services, names));
    DropAllLive(a, names);
    WithoutIs(a.services, names);
    forall n ensures n in b.registry <==> n in NamesOf(b.services) {
      if n in NamesOf(b.services) {
        var i :| 0 <= i < |b.services| && NamesOf(b.services)[i] == n;
        assert b.services[i] in b.services;
        var j :| 0 <= j < |a.services| && a.services[j] == b.services[i];
        assert NamesOf(a.services)[j] == n;
      }
      if n in b.registry {
        var j :| 0 <= j < |a.services| && NamesOf(a.services)[j] == n;
        assert a.services[j] in b.services;
        var i :| 0 <= i < |b.services| && b.services[i] == a.services[j];
        assert NamesOf(b.services)[i] == n;
      }
    }
    forall i | 0 <= i < |b.services| ensures Serves(b, b.services[i].name) <==> !Paused(b.services[i]) {
      assert b.services[i] in b.services;
      var j :| 0 <= j < |a.services| && a.services[j] == b.services[i];
      assert Serves(b, b.services[i].name) <==> Serves(live, b.services[i].name);
    }
  }

  lemma DeleteKeeps(a: Agent, services: seq<string>)
    requires Agree(a)
    ensures Agree(Delete(a, services).agent)
  {
    RemoveKeeps(a, TrimAll(services));
  }

  // ---- pauseServices ----

  lemma {:induction false} CloseAllFrame(a: Agent, names: seq<string>)
    ensures CloseAll(a, names) == a.(serving := CloseAll(a, names).serving)
    ensures CloseAll(a, names).serving <= a.serving
  {
    if names != [] { CloseAllFrame(a, names[..|names| - 1]); }
  }

  lemma {:induction false} PauseAllKeeps(a: Agent, names: seq<string>)
    requires Agree(a) && forall i :: 0 <= i < |names| ==> names[i] in a.registry
    ensures Agree(CloseAll(a, names).(services := MarkAll(a.services, names)))
  {
    if names != [] {
      var init, last := names[..|names| - 1], names[|names| - 1];
      PauseAllKeeps(a, init);
      CloseAllFrame(a, init);
      PauseKeeps(CloseAll(a, init).(services := MarkAll(a.services, init)), last);
    }
  }

  // From agreeing stores a pause always finds the configurations: the rollback branch,
  // which would leave services closed but unmarked, is never taken.
  lemma PauseKeepsAlways(a: Agent, services: seq<string>)
    requires Agree(a)
    ensures Agree(Pause(a, services).agent)
    ensures Pause(a, services).error.None? || Pause(a, services).agent == a
    ensures Pause(a, services).error.Some? ==> !Pause(a, services).error.value.ConfigNotFound?
  {
    var names := TrimAll(services);
    if services != [] {
      if Refusal(a.registry, names, true, ALL_PARSE, 0).None? {
        NotRefused(a.registry, names, true, ALL_PARSE, 0);
        PauseAllKeeps(a, names);
        forall i | 0 <= i < |names| ensures Listed(a.services, names[i]) { ListedByName(a.services, names[i]); }
      } else {
        RefusalKinds(a.registry, names, 0);
      }
    }
  }

  lemma {:induction false} RefusalKinds(registry: map<string, Handle>, names: seq<string>, i: nat)
    ensures var e := Refusal(registry, names, true, ALL_PARSE, i); e.Some? ==> e.value.NameRequired? || e.value.NotFound?
    decreases |names| - i
  {
    if i < |names| { RefusalKinds(registry, names, i + 1); }
  }

  // ---- resumeServices ----

  lemma {:induction false} PausedNamesAre(services: seq<ServiceConfig>, names: seq<string>)
    ensures forall n :: n in PausedNames(services, names) <==> n in names && Listed(services, n) && Paused(services[IndexOf(services, n)])
  {
    if names != [] {
      PausedNamesAre(services, names[..|names| - 1]);
      assert names == names[..|names| - 1] + [names[|names| - 1]];
    }
  }

  // Every registered instance is the one first seen or newer than all of those.
  ghost predicate SeenOrNewer(a: Agent, seen: map<string, Handle>, bound: Handle) {
    && bound <= a.next
    && (forall n :: n in seen ==> seen[n] < bound)
    && (forall m, n :: m in seen && n in seen && seen[m] == seen[n] ==> m == n)
    && (forall n :: n in a.registry ==> n in seen && (a.registry[n] == seen[n] || a.registry[n] >= bound))
  }

  lemma {:induction false} RelaunchIgnoresList(a: Agent, seen: map<string, Handle>, s: seq<ServiceConfig>, names: seq<string>, parses: Parses, i: nat)
    ensures Relaunch(a, seen, names, parses, i).error == Relaunch(a.(services := s), seen, names, parses, i).error
    ensures Relaunch(a, seen, names, parses, i).error.None? ==>
              Relaunch(a.(services := s), seen, names, parses, i).agent == Relaunch(a, seen, names, parses, i).agent.(services := s)
    decreases |names| - i
  {
    if i < |names| {
      RelaunchNext(a, seen, names, parses, i);
      RelaunchNext(a.(services := s), seen, names, parses, i);
      if parses(i) {
        var next := Launch(DropSeen(a, seen, names[i]), names[i]);
        assert Launch(DropSeen(a.(services := s), seen, names[i]), names[i]) == next.(services := s);
        RelaunchIgnoresList(next, seen, s, names, parses, i + 1);
      }
    }
  }

  lemma RelaunchNext(a: Agent, seen: map<string, Handle>, names: seq<string>, parses: Parses, i: nat)
    requires i < |names|
    ensures parses(i) ==>
              Relaunch(a, seen, names, parses, i) == Relaunch(Launch(DropSeen(a, seen, names[i]), names[i]), seen, names, parses, i + 1)
    ensures !parses(i) ==> Relaunch(a, seen, names, parses, i).error == Some(ParseFailed(names[i]))
  {
  }

  lemma CloseSeen(a: Agent, seen: map<string, Handle>, bound: Handle, n: string)
    requires Agree(a) && SeenOrNewer(a, seen, bound) && n in a.registry
    ensures DropSeen(a, seen, n) == Drop(a, n)
  {
  }

  // One turn of the second phase followed by clearing its mark.
  lemma ResumeOneKeeps(a: Agent, seen: map<string, Handle>, bound: Handle, n: string)
    requires Agree(a) && SeenOrNewer(a, seen, bound) && n in a.registry
    ensures var b := Launch(DropSeen(a, seen, n), n).(services := ClearFirst(a.services, n));
            Agree(b) && SeenOrNewer(b, seen, bound) && forall m :: m in a.registry ==> m in b.registry
  {
    ListedByName(a.services, n);
    CloseSeen(a, seen, bound, n);
    RestartKeeps(a, IndexOf(a.services, n), ClearPaused(a.services[IndexOf(a.services, n)]));
  }

  // Where a resume stands after i of its services.
  ghost predicate Resuming(a: Agent, seen: map<string, Handle>, bound: Handle, base: seq<ServiceConfig>, names: seq<string>, i: nat) {
    i <= |names| && Agree(a) && SeenOrNewer(a, seen, bound) && a.services == ClearAll(base, names[..i])
    && forall j :: 0 <= j < |names| ==> names[j] in a.registry
  }

  lemma ResumeNext(a: Agent, seen: map<string, Handle>, bound: Handle, base: seq<ServiceConfig>, names: seq<string>, i: nat, b: Agent)
    requires i < |names| && Resuming(a, seen, bound, base, names, i)
    requires b == Launch(DropSeen(a, seen, names[i]), names[i]).(services := ClearFirst(a.services, names[i]))
    ensures Resuming(b, seen, bound, base, names, i + 1)
  {
    ResumeOneKeeps(a, seen, bound, names[i]);
    assert names[..i + 1][..i] == names[..i];
  }

  lemma {:induction false} ResumeAllKeeps(a: Agent, seen: map<string, Handle>, bound: Handle, base: seq<ServiceConfig>, names: seq<string>, parses: Parses, i: nat)
    requires Resuming(a, seen, bound, base, names, i)
    requires Relaunch(a, seen, names, parses, i).error.None?
    ensures Agree(Relaunch(a, seen, names, parses, i).agent.(services := ClearAll(base, names)))
    decreases |names| - i
  {
    if i == |names| {
      assert names[..i] == names;
    } else {
      var b := Launch(DropSeen(a, seen, names[i]), names[i]).(services := ClearFirst(a.services, names[i]));
      ResumeNext(a, seen, bound, base, names, i, b);
      RelaunchReduces(a, seen, names, parses, i, b, ClearAll(base, names));
      ResumeAllKeeps(b, seen, bound, base, names, parses, i + 1);
    }
  }

  lemma RelaunchReduces(a: Agent, seen: map<string, Handle>, names: seq<string>, parses: Parses, i: nat, b: Agent, final: seq<ServiceConfig>)
    requires i < |names| && Relaunch(a, seen, names, parses, i).error.None?
    requires b == Launch(DropSeen(a, seen, names[i]), names[i]).(services := b.services)
    ensures Relaunch(b, seen, names, parses, i + 1).error.None?
    ensures Relaunch(a, seen, names, parses, i).agent.(services := final) == Relaunch(b, seen, names, parses, i + 1).agent.(services := final)
  {
    RelaunchNext(a, seen, names, parses, i);
    RelaunchIgnoresList(Launch(DropSeen(a, seen, names[i]), names[i]), seen, b.services, names, parses, i + 1);
  }

  lemma {:induction false} RelaunchFails(a: Agent, seen: map<string, Handle>, names: seq<string>, parses: Parses, i: nat)
    ensures Relaunch(a, seen, names, parses, i).error.None? <==> forall j :: i <= j < |names| ==> parses(j)
    decreases |names| - i
  {
    if i < |names| && parses(i) {
      RelaunchFails(Launch(DropSeen(a, seen, names[i]), names[i]), seen, names, parses, i + 1);
    }
  }

  lemma {:induction false} MarkAllKeepsNames(services: seq<ServiceConfig>, names: seq<string>)
    ensures |MarkAll(services, names)| == |services|
    ensures forall i :: 0 <= i < |services| ==> MarkAll(services, names)[i].name == services[i].name
  {
    if names != [] { MarkAllKeepsNames(services, names[..|names| - 1]); }
  }

  lemma {:induction false} RelaunchFailureLosesName(a: Agent, seen: map<string, Handle>, names: seq<string>, parses: Parses, i: nat)
    requires Relaunch(a, seen, names, parses, i).error.Some?
    ensures exists j :: i <= j < |names| && names[j] !in Relaunch(a, seen, names, parses, i).agent.registry
    ensures |Relaunch(a, seen, names, parses, i).agent.services| == |a.services|
    ensures forall k :: 0 <= k < |a.services| ==> Relaunch(a, seen, names, parses, i).agent.services[k].name == a.services[k].name
    decreases |names| - i
  {
    var dropped := DropSeen(a, seen, names[i]);
    if parses(i) {
      RelaunchFailureLosesName(Launch(dropped, names[i]), seen, names, parses, i + 1);
    } else {
      CloseAllFrame(dropped, names[..i]);
      MarkAllKeepsNames(a.services, names[..i]);
      assert names[i] !in CloseAll(dropped, names[..i]).registry;
    }
  }

  // A resume keeps the agreement exactly when it is refused up front or every paused
  // service it names is parsed again successfully.
  lemma ResumeKeepsExactly(a: Agent, services: seq<string>, parses: Parses)
    requires Agree(a)
    ensures Agree(Resume(a, services, parses).agent) <==>
            || services == []
            || ResumeRefusal(a, TrimAll(services), 0).Some?
            || (forall j :: 0 <= j < |PausedNames(a.services, TrimAll(services))| ==> parses(j))
  {
    var names := TrimAll(services);
    if services != [] && ResumeRefusal(a, names, 0).None? {
      var todo := PausedNames(a.services, names);
      assert forall n :: n in todo ==> n in NamesOf(a.services) by {
        PausedNamesAre(a.services, names);
        forall n | n in todo ensures n in NamesOf(a.services) { ListedByName(a.services, n); }
      }
      RelaunchFails(a, a.registry, todo, parses, 0);
      RelaunchDecides(a, todo, parses);
    }
  }

  // Relaunching listed services ends in agreement if it succeeds and not if it fails.
  lemma RelaunchDecides(a: Agent, todo: seq<string>, parses: Parses)
    requires Agree(a) && forall n :: n in todo ==> n in NamesOf(a.services)
    ensures var done := Relaunch(a, a.registry, todo, parses, 0);
            if done.error.None? then Agree(done.agent.(services := ClearAll(a.services, todo))) else !Agree(done.agent)
  {
    var done := Relaunch(a, a.registry, todo, parses, 0);
    forall j | 0 <= j < |todo| ensures todo[j] in a.registry { assert todo[j] in todo; }
    if done.error.None? {
      ResumeAllKeeps(a, a.registry, a.next, a.services, todo, parses, 0);
    } else {
      RelaunchFailureLosesName(a, a.registry, todo, parses, 0);
      var j :| 0 <= j < |todo| && todo[j] !in done.agent.registry;
      assert todo[j] in todo;
      assert NamesOf(a.services) == NamesOf(done.agent.services);
    }
  }

  // ---- whole runs ----

  datatype Command =
    | AddService(data: seq<ServiceConfig>, parses: Parses)
    | UpdateService(data: seq<ServiceConfig>, parses: Parses)
    | SyncService(data: seq<ServiceConfig>, parses: Parses)
    | DeleteService(services: seq<string>)
    | PauseService(services: seq<string>)
    | ResumeService(services: seq<string>, parses: Parses)

  function Execute(a: Agent, c: Command): Outcome {
    match c
    case AddService(data, parses) => Create(a, data, parses)
    case UpdateService(data, parses) => Update(a, data, parses)
    case SyncService(data, parses) => Sync(a, data, parses)
    case DeleteService(services) => Delete(a, services)
    case PauseService(services) => Pause(a, services)
    case ResumeService(services, parses) => Resume(a, services, parses)
  }

  // No configuration arrives marked as paused, and updates carry trimmed names.
  predicate WellFormed(c: Command) {
    match c
    case AddService(data, _) => forall i :: 0 <= i < |data| ==> !Paused(data[i])
    case UpdateService(data, _) => CleanRequest(data)
    case SyncService(data, _) => forall i :: 0 <= i < |data| ==> !Paused(data[i])
    case _ => true
  }

  // The command re-parses an existing service and fails.
  ghost predicate LosesInstance(a: Agent, c: Command) {
    match c
    case UpdateService(data, parses) =>
      (forall i :: 0 <= i < |data| ==> data[i].name in a.registry) && exists i :: 0 <= i < |data| && !parses(i)
    case SyncService(data, parses) => exists i :: SyncLosesAt(a, data, parses, i)
    case ResumeService(services, parses) =>
      && services != [] && ResumeRefusal(a, TrimAll(services), 0).None?
      && exists j :: 0 <= j < |PausedNames(a.services, TrimAll(services))| && !parses(j)
    case _ => false
  }

  // From agreeing stores, a well-formed command keeps the agreement exactly when it does
  // not fail to re-parse an existing service.
  lemma CommandKeepsExactly(a: Agent, c: Command)
    requires Agree(a) && WellFormed(c)
    ensures Agree(Execute(a, c).agent) <==> !LosesInstance(a, c)
  {
    match c
    case AddService(data, parses) => CreateKeeps(a, data, parses);
    case UpdateService(data, parses) => UpdateKeepsExactly(a, data, parses);
    case SyncService(data, parses) => SyncKeepsExactly(a, data, parses);
    case DeleteService(services) => DeleteKeeps(a, services);
    case PauseService(services) => PauseKeepsAlways(a, services);
    case ResumeService(services, parses) => ResumeKeepsExactly(a, services, parses);
  }

  function Run(a: Agent, commands: seq<Command>): Agent
    decreases |commands|
  {
    if commands == [] then a else Run(Execute(a, commands[0]).agent, commands[1..])
  }

  ghost predicate GoodRun(a: Agent, commands: seq<Command>)
    decreases |commands|
  {
    commands != [] ==>
      && WellFormed(commands[0]) && !LosesInstance(a, commands[0])
      && GoodRun(Execute(a, commands[0]).agent, commands[1..])
  }

  lemma {:induction false} RunKeepsAgreement(a: Agent, commands: seq<Command>)
    requires Agree(a) && GoodRun(a, commands)
    ensures Agree(Run(a, commands))
    decreases |commands|
  {
    if commands != [] {
      CommandKeepsExactly(a, commands[0]);
      RunKeepsAgreement(Execute(a, commands[0]).agent, commands[1..]);
    }
  }

  // Starting from empty tables, every good run leaves the stores in agreement.
  lemma AgreementFromEmpty(commands: seq<Command>)
    requires GoodRun(EMPTY, commands)
    ensures Agree(Run(EMPTY, commands))
  {
    RunKeepsAgreement(EMPTY, commands);
  }
}
