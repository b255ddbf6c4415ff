/** Configuration replay: a sync overrides by name and can be repeated, and pausing and
    resuming the same services restores the configuration list. */
module AgentReplay {
  import opened Text
  import opened AgentTables
  import opened AgentAgreement

  // The last entry for a name.
  function LastEntry(stored: seq<ServiceConfig>, n: string): Option<ServiceConfig> {
    if stored == [] then None
    else if stored[|stored| - 1].name == n then Some(stored[|stored| - 1])
    else LastEntry(stored[..|stored| - 1], n)
  }

  // The stored configurations after a replay: the request where it speaks, else as before.
  function Overridden(before: seq<ServiceConfig>, stored: seq<ServiceConfig>, n: string): Option<ServiceConfig> {
    if LastEntry(stored, n).Some? then LastEntry(stored, n) else ConfigOf(before, n)
  }

  lemma SameNames(s: seq<ServiceConfig>, t: seq<ServiceConfig>, n: string)
    requires |s| == |t| && forall i :: 0 <= i < |s| ==> s[i].name == t[i].name
    ensures IndexOf(s, n) == IndexOf(t, n)
  {
  }

  lemma {:induction false} IndexAppend(s: seq<ServiceConfig>, c: ServiceConfig, n: string)
    ensures IndexOf(s + [c], n) == if Listed(s, n) then IndexOf(s, n) else if c.name == n then |s| else |s| + 1
  {
    if s == [] {
      assert s + [c] == [c];
    } else {
      IndexAppend(s[1..], c, n);
      assert (s + [c])[1..] == s[1..] + [c];
    }
  }

  // The name is in both stores, or in neither.
  predicate Aligned(a: Agent, n: string) { n in a.registry <==> n in NamesOf(a.services) }

  lemma PutConfig(a: Agent, c: ServiceConfig, n: string)
    requires Aligned(a, c.name)
    ensures ConfigOf(Put(a, c).services, n) == if n == c.name then Some(c) else ConfigOf(a.services, n)
  {
    ListedByName(a.services, c.name);
    if c.name in a.registry {
      SameNames(a.services, ReplaceFirst(a.services, c), n);
    } else {
      IndexAppend(a.services, c, n);
    }
  }

  // Distinct names, the same in both stores; nothing is said about the marks.
  ghost predicate Matched(a: Agent) { LiveSide(a) && SameNamesInBoth(a) }

  predicate Named(stored: seq<ServiceConfig>) { forall j :: 0 <= j < |stored| ==> stored[j].name != "" }

  lemma AppendedNames(a: Agent, b: Agent, c: ServiceConfig)
    requires SameNamesInBoth(a) && c.name !in a.registry && b.services == a.services + [c]
    requires forall n :: n in b.registry <==> n in a.registry || n == c.name
    ensures SameNamesInBoth(b)
  {
    assert NamesOf(b.services) == NamesOf(a.services) + [c.name];
    forall i | 0 <= i < |a.services| ensures a.services[i].name != c.name { assert NamesOf(a.services)[i] in NamesOf(a.services); }
  }

  // The live side of putting one configuration in place.
  function Live(a: Agent, c: ServiceConfig): Agent {
    Launch(if c.name in a.registry then Drop(a, c.name) else a, c.name)
  }

  lemma LiveMatched(a: Agent, c: ServiceConfig)
    requires LiveSide(a) && c.name != ""
    ensures LiveSide(Live(a, c)) && forall n :: Serves(Live(a, c), n) <==> n == c.name || Serves(a, n)
  {
    if c.name in a.registry {
      DropLive(a, c.name);
      LaunchLive(Drop(a, c.name), c.name);
    } else {
      LaunchLive(a, c.name);
    }
  }

  lemma PutIs(a: Agent, c: ServiceConfig)
    ensures Put(a, c) == Live(a, c).(services := Put(a, c).services)
    ensures forall n :: n in Put(a, c).registry <==> n in a.registry || n == c.name
  {
  }

  lemma PutNames(a: Agent, c: ServiceConfig)
    requires SameNamesInBoth(a)
    ensures SameNamesInBoth(Put(a, c))
  {
    PutIs(a, c);
    if c.name in a.registry {
      assert NamesOf(ReplaceFirst(a.services, c)) == NamesOf(a.services);
    } else {
      AppendedNames(a, Put(a, c), c);
    }
  }

  lemma OtherList(a: Agent, services: seq<ServiceConfig>, n: string)
    ensures Serves(a.(services := services), n) <==> Serves(a, n)
    ensures LiveSide(a) ==> LiveSide(a.(services := services))
  {
  }

  lemma PutMatched(a: Agent, c: ServiceConfig, n: string)
    requires Matched(a) && c.name != ""
    ensures Matched(Put(a, c)) && (Serves(Put(a, c), n) <==> n == c.name || Serves(a, n))
  {
    LiveMatched(a, c);
    PutNames(a, c);
    PutIs(a, c);
    OtherList(Live(a, c), Put(a, c).services, n);
  }

  lemma {:induction false} PutAllMatched(a: Agent, stored: seq<ServiceConfig>, k: nat)
    requires Matched(a) && Named(stored) && k <= |stored|
    ensures Matched(PutAll(a, stored, k))
  {
    if k > 0 {
      PutAllMatched(a, stored, k - 1);
      PutMatched(PutAll(a, stored, k - 1), stored[k - 1], "");
    }
  }

  lemma PutServes(b: Agent, stored: seq<ServiceConfig>, k: nat, n: string, before: bool)
    requires 0 < k <= |stored| && Matched(b) && stored[k - 1].name != ""
    requires Serves(b, n) <==> NamedBefore(stored, k - 1, n) || before
    ensures Serves(Put(b, stored[k - 1]), n) <==> NamedBefore(stored, k, n) || before
  {
    PutMatched(b, stored[k - 1], n);
    NamedNext(stored, k, n);
  }

  lemma {:induction false} PutAllServes(a: Agent, stored: seq<ServiceConfig>, k: nat, n: string)
    requires Matched(a) && Named(stored) && k <= |stored|
    ensures Serves(PutAll(a, stored, k), n) <==> NamedBefore(stored, k, n) || Serves(a, n)
  {
    if k > 0 {
      var b := PutAll(a, stored, k - 1);
      assert Matched(b) by { PutAllMatched(a, stored, k - 1); }
      PutAllServes(a, stored, k - 1, n);
      PutServes(b, stored, k, n, Serves(a, n));
    }
  }

  // Putting a configuration in place stores it exactly when its name is in both stores or in
  // neither: an unregistered one is appended behind what is listed, a registered one replaces
  // only what is listed.
  lemma PutStoresExactly(a: Agent, c: ServiceConfig)
    ensures ConfigOf(Put(a, c).services, c.name) == Some(c) <==> Aligned(a, c.name) || ConfigOf(a.services, c.name) == Some(c)
  {
    ListedByName(a.services, c.name);
    IndexAppend(a.services, c, c.name);
    if Aligned(a, c.name) { PutConfig(a, c, c.name); }
  }

  lemma PutAligned(a: Agent, c: ServiceConfig, n: string)
    requires Aligned(a, c.name) && Aligned(a, n)
    ensures Aligned(Put(a, c), n)
  {
    PutIs(a, c);
    if c.name in a.registry {
      assert NamesOf(ReplaceFirst(a.services, c)) == NamesOf(a.services);
    } else {
      assert NamesOf(a.services + [c]) == NamesOf(a.services) + [c.name];
    }
  }

  lemma {:induction false} PutAllAligned(a: Agent, stored: seq<ServiceConfig>, k: nat, n: string)
    requires k <= |stored| && Aligned(a, n) && forall j :: 0 <= j < |stored| ==> Aligned(a, stored[j].name)
    ensures Aligned(PutAll(a, stored, k), n)
  {
    if k > 0 {
      PutAllAligned(a, stored, k - 1, n);
      PutAllAligned(a, stored, k - 1, stored[k - 1].name);
      PutAligned(PutAll(a, stored, k - 1), stored[k - 1], n);
    }
  }

  lemma {:induction false} PutAllConfig(a: Agent, stored: seq<ServiceConfig>, k: nat, n: string)
    requires k <= |stored| && forall j :: 0 <= j < |stored| ==> Aligned(a, stored[j].name)
    ensures ConfigOf(PutAll(a, stored, k).services, n) == Overridden(a.services, stored[..k], n)
  {
    if k > 0 {
      PutAllConfig(a, stored, k - 1, n);
      PutAllAligned(a, stored, k - 1, stored[k - 1].name);
      PutOverrides(PutAll(a, stored, k - 1), a.services, stored, k, n);
    }
  }

  lemma PutOverrides(b: Agent, before: seq<ServiceConfig>, stored: seq<ServiceConfig>, k: nat, n: string)
    requires 0 < k <= |stored| && Aligned(b, stored[k - 1].name)
    requires ConfigOf(b.services, n) == Overridden(before, stored[..k - 1], n)
    ensures ConfigOf(Put(b, stored[k - 1]).services, n) == Overridden(before, stored[..k], n)
  {
    PutConfig(b, stored[k - 1], n);
    assert stored[..k][..k - 1] == stored[..k - 1];
  }

  // A sync succeeds exactly when it has entries, all named and all parsed, and then it has
  // put them in place one after the other.
  lemma SyncSucceedsExactly(a: Agent, data: seq<ServiceConfig>, parses: Parses)
    ensures var r := Sync(a, data, parses);
            && (r.error.None? <==> data != [] && forall j :: 0 <= j < |data| ==> parses(j) && Trim(data[j].name) != "")
            && (r.error.None? ==> r.agent == PutAll(a, Stored(data), |data|) && Named(Stored(data)))
  {
    var n := FirstStop(data, parses, 0);
    SyncReaches(a, data, parses, n);
    if n < |data| { SyncOneStops(PutAll(a, Stored(data), n), data[n], parses(n)); }
  }

  // What putting a whole list in place does.
  lemma PutAllOverrides(a: Agent, stored: seq<ServiceConfig>, b: Agent, n: string)
    requires Matched(a) && Named(stored) && b == PutAll(a, stored, |stored|)
    ensures Matched(b) && ConfigOf(b.services, n) == Overridden(a.services, stored, n)
    ensures Serves(b, n) <==> n in NamesOf(stored) || Serves(a, n)
  {
    PutAllMatched(a, stored, |stored|);
    PutAllConfig(a, stored, |stored|, n);
    PutAllServes(a, stored, |stored|, n);
    assert stored[..|stored|] == stored && NamesOf(stored)[..|stored|] == NamesOf(stored);
  }

  // A successful sync overrides the stored configurations by the request, name by name, the
  // last entry of a name winning; it starts what it names and stops nothing. This needs no
  // assumption on the marks in the request or in the stores.
  lemma SyncOverrides(a: Agent, data: seq<ServiceConfig>, parses: Parses, n: string)
    requires Matched(a) && Sync(a, data, parses).error.None?
    ensures var r := Sync(a, data, parses).agent;
            && Matched(r)
            && ConfigOf(r.services, n) == Overridden(a.services, Stored(data), n)
            && (Serves(r, n) <==> n in NamesOf(Stored(data)) || Serves(a, n))
  {
    SyncSucceedsExactly(a, data, parses);
    PutAllOverrides(a, Stored(data), PutAll(a, Stored(data), |data|), n);
  }

  // The winning entries carry no mark.
  ghost predicate WinnersUnmarked(stored: seq<ServiceConfig>) {
    forall n :: LastEntry(stored, n).Some? ==> !Paused(LastEntry(stored, n).value)
  }

  // The marks match what serves, told name by name.
  lemma FlagsByName(a: Agent)
    requires SameNamesInBoth(a)
    ensures FlagsMatch(a) <==> forall n :: ConfigOf(a.services, n).Some? ==> (Serves(a, n) <==> !Paused(ConfigOf(a.services, n).value))
  {
    forall i | 0 <= i < |a.services| ensures ConfigOf(a.services, a.services[i].name) == Some(a.services[i]) { ListedAt(a.services, i); }
  }

  // From agreeing stores, a successful sync leaves agreeing stores exactly when no winning
  // entry is marked as paused: a marked one is started all the same.
  lemma SyncAgreesExactly(a: Agent, data: seq<ServiceConfig>, parses: Parses)
    requires Agree(a) && Sync(a, data, parses).error.None?
    ensures Agree(Sync(a, data, parses).agent) <==> WinnersUnmarked(Stored(data))
  {
    var r, stored := Sync(a, data, parses).agent, Stored(data);
    FlagsByName(a);
    SyncOverrides(a, data, parses, "");
    FlagsByName(r);
    forall n
      ensures ConfigOf(r.services, n) == Overridden(a.services, stored, n)
      ensures Serves(r, n) <==> LastEntry(stored, n).Some? || Serves(a, n)
    {
      SyncOverrides(a, data, parses, n);
      LastEntryNamed(stored, n);
    }
  }

  lemma {:induction false} LastEntryNamed(stored: seq<ServiceConfig>, n: string)
    ensures LastEntry(stored, n).Some? <==> n in NamesOf(stored)
  {
    if stored != [] {
      var k := |stored| - 1;
      LastEntryNamed(stored[..k], n);
      assert NamesOf(stored) == NamesOf(stored[..k]) + [stored[k].name];
    }
  }

  lemma SameConfigsSameList(s: seq<ServiceConfig>, t: seq<ServiceConfig>)
    requires Distinct(s) && Distinct(t) && NamesOf(s) == NamesOf(t)
    requires forall n :: ConfigOf(s, n) == ConfigOf(t, n)
    ensures s == t
  {
    forall i | 0 <= i < |s| ensures s[i] == t[i] {
      assert NamesOf(s)[i] == s[i].name && NamesOf(t)[i] == t[i].name;
      ListedAt(s, i);
      ListedAt(t, i);
      assert ConfigOf(s, s[i].name) == Some(s[i]) && ConfigOf(t, t[i].name) == Some(t[i]);
    }
  }

  lemma PutRegistered(a: Agent, c: ServiceConfig)
    requires c.name in a.registry && c.name in NamesOf(a.services)
    ensures NamesOf(Put(a, c).services) == NamesOf(a.services)
  {
  }

  // Putting a list in place whose names are all present keeps the list of names.
  lemma {:induction false} PutAllRegistered(a: Agent, stored: seq<ServiceConfig>, k: nat)
    requires k <= |stored|
    requires forall j :: 0 <= j < |stored| ==> stored[j].name in a.registry && stored[j].name in NamesOf(a.services)
    ensures NamesOf(PutAll(a, stored, k).services) == NamesOf(a.services)
  {
    if k > 0 {
      PutAllRegistered(a, stored, k - 1);
      PutAllRegisters(a, stored, k - 1, stored[k - 1].name);
      PutRegistered(PutAll(a, stored, k - 1), stored[k - 1]);
    }
  }

  lemma AllRegistered(a: Agent, stored: seq<ServiceConfig>, j: nat)
    requires j < |stored|
    ensures stored[j].name in PutAll(a, stored, |stored|).registry
  {
    assert NamesOf(stored)[..|stored|] == NamesOf(stored) && NamesOf(stored)[j] == stored[j].name;
    PutAllRegisters(a, stored, |stored|, stored[j].name);
  }

  lemma SameAgain(a: Agent, stored: seq<ServiceConfig>, once: Agent, twice: Agent, n: string)
    requires Matched(a) && Matched(once) && Named(stored)
    requires once == PutAll(a, stored, |stored|) && twice == PutAll(once, stored, |stored|)
    ensures ConfigOf(twice.services, n) == ConfigOf(once.services, n)
    ensures Serves(twice, n) <==> Serves(once, n)
  {
    assert ConfigOf(once.services, n) == Overridden(a.services, stored, n) && (Serves(once, n) <==> n in NamesOf(stored) || Serves(a, n)) by {
      PutAllOverrides(a, stored, once, n);
    }
    assert ConfigOf(twice.services, n) == Overridden(once.services, stored, n) && (Serves(twice, n) <==> n in NamesOf(stored) || Serves(once, n)) by {
      PutAllOverrides(once, stored, twice, n);
    }
  }

  lemma SameNamesAgain(a: Agent, stored: seq<ServiceConfig>, once: Agent, twice: Agent)
    requires SameNamesInBoth(once)
    requires once == PutAll(a, stored, |stored|) && twice == PutAll(once, stored, |stored|)
    ensures NamesOf(twice.services) == NamesOf(once.services)
  {
    forall j | 0 <= j < |stored| ensures stored[j].name in once.registry { AllRegistered(a, stored, j); }
    PutAllRegistered(once, stored, |stored|);
  }

  lemma SameListAgain(a: Agent, stored: seq<ServiceConfig>, once: Agent, twice: Agent)
    requires Matched(a) && Matched(once) && Matched(twice) && Named(stored)
    requires once == PutAll(a, stored, |stored|) && twice == PutAll(once, stored, |stored|)
    ensures twice.services == once.services
  {
    SameNamesAgain(a, stored, once, twice);
    forall n ensures ConfigOf(twice.services, n) == ConfigOf(once.services, n) { SameAgain(a, stored, once, twice, n); }
    SameConfigsSameList(once.services, twice.services);
  }

  lemma PutAllTwice(a: Agent, stored: seq<ServiceConfig>, once: Agent, twice: Agent)
    requires Matched(a) && Named(stored)
    requires once == PutAll(a, stored, |stored|) && twice == PutAll(once, stored, |stored|)
    ensures Matched(once) && Matched(twice) && twice.services == once.services
    ensures forall n :: Serves(twice, n) <==> Serves(once, n)
  {
    assert Matched(once) by { PutAllMatched(a, stored, |stored|); }
    assert Matched(twice) by { PutAllMatched(once, stored, |stored|); }
    SameListAgain(a, stored, once, twice);
    forall n ensures Serves(twice, n) <==> Serves(once, n) { SameAgain(a, stored, once, twice, n); }
  }

  // Replaying the same request successfully once more changes nothing that is stored: same
  // list, same registered names, same services serving.
  lemma SyncTwice(a: Agent, data: seq<ServiceConfig>, parses: Parses, again: Parses)
    requires Matched(a) && Sync(a, data, parses).error.None? && Sync(Sync(a, data, parses).agent, data, again).error.None?
    ensures var once := Sync(a, data, parses).agent;
            var twice := Sync(once, data, again).agent;
            && twice.services == once.services
            && (forall n :: n in twice.registry <==> n in once.registry)
            && (forall n :: Serves(twice, n) <==> Serves(once, n))
  {
    var once := Sync(a, data, parses).agent;
    var twice := Sync(once, data, again).agent;
    SyncSucceedsExactly(a, data, parses);
    SyncSucceedsExactly(once, data, again);
    PutAllTwice(a, Stored(data), once, twice);
  }

  // ---- pause, then resume ----

  // A configuration as it is stored while its service runs: no mark, and no empty metadata map.
  predicate Unmarked(c: ServiceConfig) {
    c.metadata.Nil? || (PAUSED !in c.metadata.entries && c.metadata.entries != map[])
  }

  lemma {:induction false} MarkAllAt(services: seq<ServiceConfig>, names: seq<string>, i: nat)
    requires Distinct(services) && i < |services|
    ensures |MarkAll(services, names)| == |services|
    ensures MarkAll(services, names)[i] == if services[i].name in names then MarkPaused(services[i]) else services[i]
  {
    if names != [] {
      var init, last := names[..|names| - 1], names[|names| - 1];
      MarkAllAt(services, init, i);
      assert names == init + [last];
      assert Distinct(MarkAll(services, init)) by { MarkAllKeepsNames(services, init); }
      MarkFirstAt(MarkAll(services, init), last, i);
      MarkTwice(services[i]);
    }
  }

  lemma {:induction false} ClearAllKeepsNames(services: seq<ServiceConfig>, names: seq<string>)
    ensures |ClearAll(services, names)| == |services|
    ensures forall i :: 0 <= i < |services| ==> ClearAll(services, names)[i].name == services[i].name
  {
    if names != [] { ClearAllKeepsNames(services, names[..|names| - 1]); }
  }

  lemma {:induction false} ClearAllAt(services: seq<ServiceConfig>, names: seq<string>, i: nat)
    requires Distinct(services) && i < |services|
    ensures |ClearAll(services, names)| == |services|
    ensures ClearAll(services, names)[i] == if services[i].name in names then ClearPaused(services[i]) else services[i]
  {
    if names != [] {
      var init, last := names[..|names| - 1], names[|names| - 1];
      ClearAllAt(services, init, i);
      assert names == init + [last];
      assert Distinct(ClearAll(services, init)) by { ClearAllKeepsNames(services, init); }
      ClearFirstAt(ClearAll(services, init), last, i);
      ClearTwice(services[i]);
    }
  }

  lemma ClearFirstAt(services: seq<ServiceConfig>, name: string, i: nat)
    requires Distinct(services) && i < |services|
    ensures |ClearFirst(services, name)| == |services|
    ensures ClearFirst(services, name)[i] == if services[i].name == name then ClearPaused(services[i]) else services[i]
  {
  }

  lemma ClearTwice(c: ServiceConfig)
    ensures ClearPaused(ClearPaused(c)) == ClearPaused(c)
  {
  }

  lemma MarkFirstAt(services: seq<ServiceConfig>, name: string, i: nat)
    requires Distinct(services) && i < |services|
    ensures |MarkFirst(services, name)| == |services|
    ensures MarkFirst(services, name)[i] == if services[i].name == name then MarkPaused(services[i]) else services[i]
  {
  }

  lemma MarkTwice(c: ServiceConfig)
    ensures MarkPaused(MarkPaused(c)) == MarkPaused(c)
  {
  }

  lemma MarkThenClear(services: seq<ServiceConfig>, names: seq<string>, i: nat)
    requires Distinct(services) && i < |services|
    ensures |ClearAll(MarkAll(services, names), names)| == |services|
    ensures ClearAll(MarkAll(services, names), names)[i] ==
            if services[i].name in names then ClearPaused(MarkPaused(services[i])) else services[i]
  {
    var marked := MarkAll(services, names);
    MarkAllKeepsNames(services, names);
    MarkAllAt(services, names, i);
    ClearAllAt(marked, names, i);
  }

  lemma UnmarkRestoresExactly(c: ServiceConfig)
    ensures ClearPaused(MarkPaused(c)) == c <==> Unmarked(c)
  {
    if c.metadata.Entries? && PAUSED !in c.metadata.entries {
      assert c.metadata.entries[PAUSED := Flag(true)] - {PAUSED} == c.metadata.entries;
    }
  }

  lemma ListRestoredExactly(services: seq<ServiceConfig>, names: seq<string>)
    requires Distinct(services)
    ensures ClearAll(MarkAll(services, names), names) == services <==>
            forall i :: 0 <= i < |services| && services[i].name in names ==> Unmarked(services[i])
  {
    var after := ClearAll(MarkAll(services, names), names);
    MarkAllKeepsNames(services, names);
    ClearAllKeepsNames(MarkAll(services, names), names);
    forall i | 0 <= i < |services|
      ensures after[i] == services[i] <==> (services[i].name in names ==> Unmarked(services[i]))
    {
      MarkThenClear(services, names, i);
      UnmarkRestoresExactly(services[i]);
    }
  }

  // Whether a listed service serves, when the stores agree.
  lemma ServesAt(a: Agent, n: string)
    requires Agree(a)
    ensures Serves(a, n) <==> ConfigOf(a.services, n).Some? && !Paused(ConfigOf(a.services, n).value)
  {
    ListedByName(a.services, n);
  }

  lemma {:induction false} AllPaused(services: seq<ServiceConfig>, names: seq<string>)
    requires forall i :: 0 <= i < |names| ==> Listed(services, names[i]) && Paused(services[IndexOf(services, names[i])])
    ensures PausedNames(services, names) == names
  {
    if names != [] { AllPaused(services, names[..|names| - 1]); }
  }

  // Pausing registered services of agreeing stores closes them and marks them, whatever
  // their marks were before.
  lemma PauseOfRegistered(a: Agent, services: seq<string>)
    requires Agree(a) && services != [] && forall i :: 0 <= i < |services| ==> Trim(services[i]) in a.registry
    ensures var r := Pause(a, services);
            && r.error.None? && Agree(r.agent) && r.agent.registry == a.registry
            && r.agent.services == MarkAll(a.services, TrimAll(services))
            && (forall n :: Serves(r.agent, n) <==> Serves(a, n) && n !in TrimAll(services))
            && PausedNames(r.agent.services, TrimAll(services)) == TrimAll(services)
  {
    var names := TrimAll(services);
    var b := Pause(a, services).agent;
    PauseKeepsAlways(a, services);
    PauseAccepted(a, names, 0);
    forall i | 0 <= i < |names| ensures Listed(a.services, names[i]) { ListedByName(a.services, names[i]); }
    CloseAllFrame(a, names);
    forall n ensures Serves(b, n) <==> Serves(a, n) && n !in names { PausedServing(a, b, names, n); }
    forall i | 0 <= i < |names| ensures Listed(b.services, names[i]) && Paused(b.services[IndexOf(b.services, names[i])]) {
      ListedByName(b.services, names[i]);
      ServesAt(b, names[i]);
    }
    AllPaused(b.services, names);
  }

  // Resuming paused services of agreeing stores succeeds exactly when all of them parse.
  lemma ResumeOfPaused(b: Agent, services: seq<string>, parses: Parses)
    requires Agree(b) && services != [] && forall i :: 0 <= i < |services| ==> Trim(services[i]) in b.registry
    requires PausedNames(b.services, TrimAll(services)) == TrimAll(services)
    ensures var r := Resume(b, services, parses);
            && (r.error.None? <==> forall j :: 0 <= j < |services| ==> parses(j))
            && (r.error.None? ==> Agree(r.agent) && r.agent.services == ClearAll(b.services, TrimAll(services)))
  {
    var names := TrimAll(services);
    forall i | 0 <= i < |names| ensures Listed(b.services, names[i]) { ListedByName(b.services, names[i]); }
    ResumeAccepted(b, names, 0);
    RelaunchFails(b, b.registry, names, parses, 0);
    ResumeKeepsExactly(b, services, parses);
  }

  // Pausing registered services and resuming them again: accepted exactly when all of them
  // parse, and then exactly the services that served or were named serve, and the
  // configuration list is back, to the letter, exactly when the named ones carried neither a
  // mark nor an empty metadata map. Other services may be paused or not.
  lemma PauseResumeRestoresExactly(a: Agent, services: seq<string>, parses: Parses)
    requires Agree(a) && services != [] && forall i :: 0 <= i < |services| ==> Trim(services[i]) in a.registry
    ensures var names := TrimAll(services);
            var paused := Pause(a, services);
            var resumed := Resume(paused.agent, services, parses);
            && paused.error.None? && (forall n :: Serves(paused.agent, n) <==> Serves(a, n) && n !in names)
            && (resumed.error.None? <==> forall j :: 0 <= j < |services| ==> parses(j))
            && (resumed.error.None? ==>
                  && (resumed.agent.services == a.services <==>
                      forall i :: 0 <= i < |a.services| && a.services[i].name in names ==> Unmarked(a.services[i]))
                  && (forall n :: Serves(resumed.agent, n) <==> Serves(a, n) || n in names))
  {
    var names := TrimAll(services);
    var b := Pause(a, services).agent;
    var c := Resume(b, services, parses);
    PauseOfRegistered(a, services);
    ResumeOfPaused(b, services, parses);
    ListRestoredExactly(a.services, names);
    if c.error.None? {
      forall n ensures Serves(c.agent, n) <==> Serves(a, n) || n in names { ServesAgain(a, c.agent, names, n); }
    }
  }

  lemma ServesAgain(a: Agent, c: Agent, names: seq<string>, n: string)
    requires Agree(a) && Agree(c) && c.services == ClearAll(MarkAll(a.services, names), names)
    requires forall i :: 0 <= i < |names| ==> names[i] in a.registry
    ensures Serves(c, n) <==> Serves(a, n) || n in names
  {
    MarkAllKeepsNames(a.services, names);
    ClearAllKeepsNames(MarkAll(a.services, names), names);
    SameNames(a.services, c.services, n);
    ServesAt(a, n);
    ServesAt(c, n);
    ListedByName(a.services, n);
    if Listed(a.services, n) { MarkThenClear(a.services, names, IndexOf(a.services, n)); }
  }

  lemma {:induction false} PauseAccepted(a: Agent, names: seq<string>, i: nat)
    requires forall j :: i <= j < |names| ==> names[j] in a.registry && names[j] != ""
    ensures Refusal(a.registry, names, true, ALL_PARSE, i).None?
    decreases |names| - i
  {
    if i < |names| { PauseAccepted(a, names, i + 1); }
  }

  lemma {:induction false} ResumeAccepted(a: Agent, names: seq<string>, i: nat)
    requires forall j :: i <= j < |names| ==> names[j] in a.registry && names[j] != "" && Listed(a.services, names[j])
    ensures ResumeRefusal(a, names, i).None?
    decreases |names| - i
  {
    if i < |names| { ResumeAccepted(a, names, i + 1); }
  }

  lemma PausedServing(a: Agent, b: Agent, names: seq<string>, n: string)
    requires Agree(a) && Agree(b) && b.services == MarkAll(a.services, names)
    ensures Serves(b, n) <==> Serves(a, n) && n !in names
  {
    MarkAllKeepsNames(a.services, names);
    assert NamesOf(b.services) == NamesOf(a.services);
    if n in NamesOf(a.services) {
      var i :| 0 <= i < |a.services| && NamesOf(a.services)[i] == n;
      MarkAllAt(a.services, names, i);
      assert b.services[i].name == n;
    }
  }

  // ---- create, then delete ----

  lemma {:induction false} DropAllIs(b: Agent, names: seq<string>)
    ensures var c := DropAll(b, names);
            && c.services == b.services && c.next == b.next
            && (forall n :: n in c.registry <==> n in b.registry && n !in names)
            && (forall n :: n in c.registry ==> c.registry[n] == b.registry[n])
            && (forall h :: h in c.serving ==> h in b.serving)
            && (forall n :: n in names && n in b.registry ==> b.registry[n] !in c.serving)
            && (forall h :: h in b.serving && h !in c.serving ==> exists n :: n in names && n in b.registry && b.registry[n] == h)
  {
    if names != [] {
      var init, last := names[..|names| - 1], names[|names| - 1];
      DropAllIs(b, init);
      assert names == init + [last];
    }
  }

  lemma LaunchThenDrop(a: Agent, names: seq<string>, list: seq<string>)
    requires OnlyMadeServe(a)
    requires forall i, j :: 0 <= i < j < |names| ==> names[i] != names[j]
    requires forall n :: n in names <==> n in list
    requires forall n :: n in names ==> n !in a.registry
    ensures DropAll(LaunchAll(a, names), list) == a.(next := a.next + |names|)
  {
    var b := LaunchAll(a, names);
    var c := DropAll(b, list);
    LaunchAllNext(a, names);
    DropAllIs(b, list);
    assert c.registry == a.registry;
    forall i | 0 <= i < |names| ensures b.registry[names[i]] == a.next + i && names[i] in list {
      LaunchAllAt(a, names, i);
      assert names[i] in names;
    }
    forall h ensures h in c.serving <==> h in a.serving { ServingAfter(a, names, list, h); }
  }

  lemma ServingAfter(a: Agent, names: seq<string>, list: seq<string>, h: Handle)
    requires forall x :: x in a.serving ==> x < a.next
    requires forall i, j :: 0 <= i < j < |names| ==> names[i] != names[j]
    requires forall n :: n in names <==> n in list
    ensures var b := LaunchAll(a, names);
            forall i :: 0 <= i < |names| ==> names[i] in b.registry && b.registry[names[i]] == a.next + i
    ensures h in DropAll(LaunchAll(a, names), list).serving <==> h in a.serving
  {
    var b := LaunchAll(a, names);
    LaunchAllServing(a, names, h);
    LaunchAllNext(a, names);
    DropAllIs(b, list);
    forall i | 0 <= i < |names| ensures names[i] in b.registry && b.registry[names[i]] == a.next + i { LaunchAllAt(a, names, i); }
    if a.next <= h < a.next + |names| { assert names[h - a.next] in names; }
  }

  lemma {:induction false} WithoutAppended(s: seq<ServiceConfig>, t: seq<ServiceConfig>, list: seq<string>)
    requires forall i :: 0 <= i < |s| ==> s[i].name !in list
    requires forall i :: 0 <= i < |t| ==> t[i].name in list
    ensures Without(s + t, list) == s
  {
    if t != [] {
      assert (s + t)[..|s + t| - 1] == s + t[..|t| - 1];
      WithoutAppended(s, t[..|t| - 1], list);
    } else {
      assert s + t == s;
      if s != [] {
        WithoutAppended(s[..|s| - 1], [], list);
        assert s[..|s| - 1] + [] == s[..|s| - 1];
        assert s == s[..|s| - 1] + [s[|s| - 1]];
      }
    }
  }

  // The agent without the running number of its instances.
  function Tables(a: Agent): Agent { a.(next := 0) }

  // The deletion of a successful add is accepted and takes everything back.
  lemma AddedThenDropped(a: Agent, stored: seq<ServiceConfig>, names: seq<string>, gone: seq<string>)
    requires OnlyMadeServe(a) && NamesOf(stored) == names && forall i, j :: 0 <= i < j < |names| ==> names[i] != names[j]
    requires forall n :: n in names <==> n in gone
    requires forall n :: n in gone ==> n != "" && n !in a.registry && n !in NamesOf(a.services)
    ensures var b := LaunchAll(a, names).(services := a.services + stored);
            && Refusal(b.registry, gone, true, ALL_PARSE, 0).None?
            && Tables(DropAll(b, gone).(services := Without(b.services, gone))) == Tables(a)
  {
    var b := LaunchAll(a, names).(services := a.services + stored);
    LaunchAllNext(a, names);
    forall i | 0 <= i < |gone| ensures gone[i] in b.registry && gone[i] != "" { assert gone[i] in names; }
    PauseAccepted(b, gone, 0);
    DropAllIgnoresList(LaunchAll(a, names), b.services, gone);
    LaunchThenDrop(a, names, gone);
    forall i | 0 <= i < |a.services| ensures a.services[i].name !in gone { assert NamesOf(a.services)[i] in NamesOf(a.services); }
    forall i | 0 <= i < |stored| ensures stored[i].name in gone { assert NamesOf(stored)[i] in names; }
    WithoutAppended(a.services, stored, gone);
  }

  // Deleting what a create of fresh names may or may not have added gives back the same
  // tables, whether or not the two stores agree: nothing is left when the create succeeded,
  // nothing is lost when it was refused.
  lemma AttemptThenDelete(a: Agent, data: seq<ServiceConfig>, parses: Parses, list: seq<string>)
    requires OnlyMadeServe(a) && data != [] && list != []
    requires forall n :: n in TrimAll(NamesOf(data)) <==> n in TrimAll(list)
    requires forall n :: n in TrimAll(list) ==> n !in a.registry && n !in NamesOf(a.services)
    ensures var c := Create(a, data, parses);
            var d := Delete(c.agent, list);
            && (d.error.None? <==> c.error.None?)
            && Tables(d.agent) == Tables(a)
  {
    var names, gone := TrimAll(NamesOf(data)), TrimAll(list);
    var c := Create(a, data, parses);
    if c.error.None? {
      NotRefused(a.registry, names, false, parses, 0);
      assert forall i, j :: 0 <= i < j < |names| ==> names[i] != names[j];
      AddedThenDropped(a, Stored(data), names, gone);
    } else {
      assert Tables(c.agent) == Tables(a);
      assert gone[0] in gone;
      assert Refusal(c.agent.registry, gone, true, ALL_PARSE, 0).Some?;
    }
  }

  lemma {:induction false} DropAllIgnoresList(a: Agent, s: seq<ServiceConfig>, names: seq<string>)
    ensures DropAll(a.(services := s), names) == DropAll(a, names).(services := s)
  {
    if names != [] { DropAllIgnoresList(a, s, names[..|names| - 1]); }
  }
}
