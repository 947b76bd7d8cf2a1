/** What `add`, `change` and `remove` do to the store and the links, and which
    of them keep the registry invariant. */
module Properties {
  import opened Records

  // ---- add ----

  /** Adding to an unknown name creates exactly the record `{id: name, version: 0,
      versions: [version]}` and the link `name -> version`; nothing else changes. */
  lemma AddCreates(st: State, name: string, version: string)
    requires name !in st.store
    ensures var next := AddNext(st, name, version);
      && next.store.Keys == st.store.Keys + {name}
      && next.store[name] == Record(name, 0, [version])
      && next.links.Keys == st.links.Keys + {name}
      && next.links[name] == version
      && (forall n :: n in st.store ==> next.store[n] == st.store[n])
      && (forall n :: n in st.links && n != name ==> next.links[n] == st.links[n])
  {
  }

  /** Adding to a known name appends `version` at the end (duplicates kept); the
      active index, every link and every other record stay as they were. */
  lemma AddAppends(st: State, name: string, version: string)
    requires name in st.store
    ensures var next := AddNext(st, name, version);
      && next.store.Keys == st.store.Keys
      && next.links == st.links
      && next.store[name].id == st.store[name].id
      && next.store[name].version == st.store[name].version
      && next.store[name].versions == st.store[name].versions + [version]
      && (forall n :: n in st.store && n != name ==> next.store[n] == st.store[n])
  {
  }

  /** `add` keeps the registry invariant. */
  lemma AddKeepsInvariant(st: State, name: string, version: string)
    ensures Invariant(st) ==> Invariant(AddNext(st, name, version))
  {
    if Invariant(st) && name in st.store {
      var next := AddNext(st, name, version);
      var before, after := st.store[name], next.store[name];
      assert after.versions[after.version] == before.versions[before.version];
    }
  }

  // ---- change ----

  /** Switching on an unknown name, or to a version the record does not hold,
      changes nothing. */
  lemma SwitchFailureChangesNothing(st: State, name: string, version: string)
    requires name !in st.store || version !in st.store[name].versions
    ensures SwitchNext(st, name, version) == st
  {
  }

  /** Switching to a held version makes its FIRST occurrence the active index
      and links `name` to it; every other record and link stays as it was. */
  lemma SwitchToHeldVersion(st: State, name: string, version: string)
    requires name in st.store && version in st.store[name].versions
    ensures var next := SwitchNext(st, name, version);
      var cli := st.store[name];
      && next.store.Keys == st.store.Keys
      && next.store[name].versions == cli.versions
      && next.store[name].id == cli.id
      && 0 <= next.store[name].version < |cli.versions|
      && cli.versions[next.store[name].version] == version
      && (forall k :: 0 <= k < next.store[name].version ==> cli.versions[k] != version)
      && next.links == st.links[name := version]
      && (forall n :: n in st.store && n != name ==> next.store[n] == st.store[n])
  {
    var i := IndexOf(st.store[name].versions, version);
    forall k | 0 <= k < i
      ensures st.store[name].versions[k] != version
    {
      assert st.store[name].versions[k] == st.store[name].versions[..i][k];
    }
  }

  /** `change` keeps the registry invariant. */
  lemma SwitchKeepsInvariant(st: State, name: string, version: string)
    ensures Invariant(st) ==> Invariant(SwitchNext(st, name, version))
  {
  }

  // ---- remove ----

  /** Removing from an unknown name changes nothing; so does removing a version
      a record of two or more versions does not hold. */
  lemma RemoveFailureChangesNothing(st: State, name: string, version: string)
    requires name !in st.store
      || (|st.store[name].versions| != 1 && version !in st.store[name].versions)
    ensures RemoveNext(st, name, version) == st
  {
  }

  /** Removing from a record with one version deletes the record and its link,
      whatever version was asked for; every other record and link stays. */
  lemma RemoveLastVersion(st: State, name: string, version: string)
    requires name in st.store && |st.store[name].versions| == 1
    ensures var next := RemoveNext(st, name, version);
      && next.store.Keys == st.store.Keys - {name}
      && next.links.Keys == st.links.Keys - {name}
      && (forall n :: n in next.store ==> next.store[n] == st.store[n])
      && (forall n :: n in next.links ==> next.links[n] == st.links[n])
  {
  }

  /** Removing the entry at the active index (located as the first occurrence
      of `version`) deletes exactly that element, resets the active index to 0
      and links `name` to the new first version. */
  lemma RemoveActiveFallsBack(st: State, name: string, version: string)
    requires name in st.store && |st.store[name].versions| >= 2
    requires version in st.store[name].versions
    requires IndexOf(st.store[name].versions, version) == st.store[name].version
    ensures var next := RemoveNext(st, name, version);
      var cli := st.store[name];
      var i := cli.version;
      && next.store.Keys == st.store.Keys
      && |next.store[name].versions| == |cli.versions| - 1
      && multiset(next.store[name].versions) + multiset{version} == multiset(cli.versions)
      && (forall k :: 0 <= k < i ==> next.store[name].versions[k] == cli.versions[k])
      && (forall k :: i <= k < |cli.versions| - 1 ==> next.store[name].versions[k] == cli.versions[k + 1])
      && next.store[name].version == 0
      && next.store[name].id == cli.id
      && next.links == st.links[name := next.store[name].versions[0]]
      && (forall n :: n in st.store && n != name ==> next.store[n] == st.store[n])
  {
    var cli := st.store[name];
    assert cli.versions[cli.version] == version;
  }

  /** Removing a held version that is not at the active index deletes exactly
      its first occurrence, keeps the others in order, and leaves the active
      index NUMERICALLY unchanged and the links untouched. */
  lemma RemoveInactive(st: State, name: string, version: string)
    requires name in st.store && |st.store[name].versions| >= 2
    requires version in st.store[name].versions
    requires IndexOf(st.store[name].versions, version) != st.store[name].version
    ensures var next := RemoveNext(st, name, version);
      var cli := st.store[name];
      var i := IndexOf(cli.versions, version);
      && next.store.Keys == st.store.Keys
      && |next.store[name].versions| == |cli.versions| - 1
      && multiset(next.store[name].versions) + multiset{version} == multiset(cli.versions)
      && (forall k :: 0 <= k < i ==> next.store[name].versions[k] == cli.versions[k])
      && (forall k :: i <= k < |cli.versions| - 1 ==> next.store[name].versions[k] == cli.versions[k + 1])
      && next.store[name].version == cli.version
      && next.store[name].id == cli.id
      && next.links == st.links
      && (forall n :: n in st.store && n != name ==> next.store[n] == st.store[n])
  {
    var cli := st.store[name];
    var i := IndexOf(cli.versions, version);
    assert cli.versions[i] == version;
  }

  /** `remove` keeps the registry invariant whenever it deletes the whole record
      or the removed entry is not below the active index. */
  lemma RemoveKeepsInvariantFromActiveOn(st: State, name: string, version: string)
    requires name in st.store && |st.store[name].versions| != 1 ==>
               (IndexOf(st.store[name].versions, version) < 0
                || IndexOf(st.store[name].versions, version) >= st.store[name].version)
    ensures Invariant(st) ==> Invariant(RemoveNext(st, name, version))
  {
    if Invariant(st) && name in st.store && |st.store[name].versions| != 1 {
      var cli := st.store[name];
      var i := IndexOf(cli.versions, version);
      if 0 <= i && cli.version != i {
        var next := RemoveNext(st, name, version);
        assert next.store[name].versions[cli.version] == cli.versions[cli.version];
      }
    }
  }

  /** Removing an entry below the active index keeps the index number, which now
      names the entry that FOLLOWED the active one: the invariant survives only
      when such an entry exists and repeats the active version. */
  lemma RemoveBelowActive(st: State, name: string, version: string)
    requires Invariant(st) && name in st.store && |st.store[name].versions| >= 2
    requires 0 <= IndexOf(st.store[name].versions, version) < st.store[name].version
    ensures var next := RemoveNext(st, name, version);
      var cli := st.store[name];
      && next.store[name].version == cli.version
      && next.links[name] == cli.versions[cli.version]
      && (Invariant(next) <==>
            cli.version + 1 < |cli.versions|
            && cli.versions[cli.version + 1] == cli.versions[cli.version])
  {
    var next := RemoveNext(st, name, version);
    var cli := st.store[name];
    if cli.version + 1 < |cli.versions| {
      assert next.store[name].versions[cli.version] == cli.versions[cli.version + 1];
      if cli.versions[cli.version + 1] == cli.versions[cli.version] {
        assert Consistent(name, next.store[name], next.links);
      }
    } else {
      assert !Consistent(name, next.store[name], next.links);
    }
  }

  /** With versions `[a, b]`, `b` active, removing `a` leaves versions `[b]`
      with active index 1, outside the versions: `remove` can break the invariant. */
  lemma RemoveCanBreakInvariant()
    ensures var st := State(map["tool" := Record("tool", 1, ["a", "b"])], map["tool" := "b"]);
      var next := RemoveNext(st, "tool", "a");
      && Invariant(st)
      && next.store["tool"] == Record("tool", 1, ["b"])
      && !Invariant(next)
  {
    var st := State(map["tool" := Record("tool", 1, ["a", "b"])], map["tool" := "b"]);
    assert IndexOf(["a", "b"], "a") == 0;
    assert Splice(["a", "b"], 0) == ["b"];
    assert !Consistent("tool", RemoveNext(st, "tool", "a").store["tool"], RemoveNext(st, "tool", "a").links);
  }

  /** No command leaves a record with no versions behind, even where `remove`
      breaks the rest of the invariant. */
  lemma StepsKeepRecordsNonEmpty(st: State, name: string, version: string)
    requires NoEmptyRecords(st.store)
    ensures NoEmptyRecords(AddNext(st, name, version).store)
    ensures NoEmptyRecords(SwitchNext(st, name, version).store)
    ensures NoEmptyRecords(RemoveNext(st, name, version).store)
  {
  }
}
