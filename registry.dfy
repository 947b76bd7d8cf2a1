/** The command-line version manager's registry: the record store and the links
    in the managed bin directory, updated in place by each command. */
module Clivm {
  import opened Records
  import opened Listing
  import Properties

  /** What a command reports. `NotFound` is "No entries found" (exit code 1);
      `VersionMissing` is "This version does not exist!", which changes nothing. */
  datatype Outcome =
    | Created
    | Appended
    | Switched(index: nat)
    | RemovedTool
    | RemovedVersion(index: nat)
    | NotFound
    | VersionMissing

  class Registry {
    /** The record store, one record per tool name. */
    var store: map<string, Record>
    /** The links in the managed bin directory, from tool name to target. */
    var links: map<string, string>

    /** The registry as a value. */
    function Snapshot(): State
      reads this
    {
      State(store, links)
    }

    /** An empty store and an empty bin directory. */
    constructor ()
      ensures store == map[] && links == map[]
      ensures Invariant(Snapshot())
    {
      store := map[];
      links := map[];
    }

    /** `removeSimlink`: delete the link of `name`, if there is one. */
    method RemoveSymlink(name: string)
      modifies this
      ensures links == old(links) - {name}
      ensures store == old(store)
    {
      links := links - {name};
    }

    /** `createSimlink`: replace the link of `name` by one targeting `version`. */
    method CreateSymlink(version: string, name: string)
      modifies this
      ensures links == old(links)[name := version]
      ensures store == old(store)
    {
      RemoveSymlink(name);
      links := links[name := version];
    }

    /** `update`: overwrite the stored record of `rec.id` by deleting it and adding `rec`. */
    method Update(rec: Record)
      requires rec.id in store
      modifies this
      ensures store == old(store)[rec.id := rec]
      ensures links == old(links)
    {
      store := store - {rec.id};
      store := store[rec.id := rec];
    }

    /** `add`: append `version` to the record of `name`, or create that record
        and its link. */
    method Add(name: string, version: string) returns (out: Outcome)
      requires Keyed(store)
      modifies this
      ensures out == if name in old(store) then Appended else Created
      ensures Snapshot() == AddNext(old(Snapshot()), name, version)
      ensures Keyed(store)
      ensures Invariant(old(Snapshot())) ==> Invariant(Snapshot())
    {
      Properties.AddKeepsInvariant(Snapshot(), name, version);
      if name in store {
        var cli := store[name];
        cli := cli.(versions := cli.versions + [version]);
        Update(cli);
        out := Appended;
      } else {
        var cli := Record(name, 0, [version]);
        store := store[name := cli];
        CreateSymlink(version, name);
        out := Created;
      }
    }

    /** `change`: make the first occurrence of `version` the active index of
        `name` and relink `name` to it. */
    method Change(name: string, version: string) returns (out: Outcome)
      requires Keyed(store)
      modifies this
      ensures name !in old(store) ==> out == NotFound
      ensures name in old(store) ==>
                var index := IndexOf(old(store)[name].versions, version);
                out == if index >= 0 then Switched(index) else VersionMissing
      ensures Snapshot() == SwitchNext(old(Snapshot()), name, version)
      ensures Keyed(store)
      ensures Invariant(old(Snapshot())) ==> Invariant(Snapshot())
    {
      Properties.SwitchKeepsInvariant(Snapshot(), name, version);
      if name !in store {
        return NotFound;
      }
      var cli := store[name];
      var index := IndexOf(cli.versions, version);
      if index >= 0 {
        cli := cli.(version := index);
        Update(cli);
        CreateSymlink(version, name);
        out := Switched(index);
      } else {
        out := VersionMissing;
      }
    }

    /** `remove`: drop the record of `name` when it has one version; otherwise
        drop the first occurrence of `version`, falling back to index 0 when that
        was the active index. The active index is NOT shifted when an earlier
        entry goes, so the invariant is kept only from the active index on. */
    method Remove(name: string, version: string) returns (out: Outcome)
      requires Keyed(store)
      modifies this
      ensures name !in old(store) ==> out == NotFound
      ensures name in old(store) && |old(store)[name].versions| == 1 ==> out == RemovedTool
      ensures name in old(store) && |old(store)[name].versions| != 1 ==>
                var index := IndexOf(old(store)[name].versions, version);
                out == if index >= 0 then RemovedVersion(index) else VersionMissing
      ensures Snapshot() == RemoveNext(old(Snapshot()), name, version)
      ensures Keyed(store)
      ensures NoEmptyRecords(old(store)) ==> NoEmptyRecords(store)
      ensures Invariant(old(Snapshot())) && (out.RemovedVersion? ==> out.index >= old(store)[name].version)
              ==> Invariant(Snapshot())
    {
      ghost var before := Snapshot();
      if NoEmptyRecords(before.store) {
        Properties.StepsKeepRecordsNonEmpty(before, name, version);
      }
      if name !in store {
        return NotFound;
      }
      var cli := store[name];
      if |cli.versions| == 1 {
        Properties.RemoveKeepsInvariantFromActiveOn(before, name, version);
        store := store - {name};
        RemoveSymlink(name);
        out := RemovedTool;
        return;
      }
      var index := IndexOf(cli.versions, version);
      if index < 0 {
        out := VersionMissing;
        return;
      }
      if index >= cli.version {
        Properties.RemoveKeepsInvariantFromActiveOn(before, name, version);
      }
      ghost var after := RemoveNext(before, name, version);
      cli := cli.(versions := Splice(cli.versions, index));
      if cli.version == index {
        cli := cli.(version := 0);
        CreateSymlink(cli.versions[0], name);
      }
      Update(cli);
      assert store == after.store && links == after.links;
      out := RemovedVersion(index);
    }

    /** `list`: walk the records as the store lists them (`order` names each
        stored tool once) and print those selected by `name`. */
    method List(name: string, order: seq<string>) returns (r: ListResult)
      requires forall n :: n in store <==> n in order
      requires forall i, j :: 0 <= i < j < |order| ==> order[i] != order[j]
      ensures r == ListingOf(RecordsIn(store, order), name)
    {
      ghost var clis := RecordsIn(store, order);
      var blocks: seq<Block> := [];
      var entryFound := false;
      var k := 0;
      while k < |order|
        invariant 0 <= k <= |order|
        invariant blocks == Selected(clis[..k], name)
        invariant entryFound <==> blocks != []
      {
        var cli := store[order[k]];
        assert clis[..k + 1][..k] == clis[..k];
        if name == cli.id || name == "all" {
          entryFound := true;
          var lines := RenderLines(cli);
          blocks := blocks + [Block(cli.id, lines)];
        }
        k := k + 1;
      }
      assert clis[..k] == clis;
      if !entryFound {
        r := NoEntries(if name == "all" || name == "" then None else Some(name));
      } else {
        r := Listed(blocks);
      }
    }
  }
}
