/** The registry's persistent state as values: the record store and the links
    in the managed bin directory, with the effect of each command on them. */
module Records {

  /** One registered tool as the store keeps it: its name, the index of the
      active version, and its versions in the order they were added. */
  datatype Record = Record(id: string, version: int, versions: seq<string>)

  /** The record store, keyed by tool name, and the links in the bin
      directory, from tool name to link target. */
  datatype State = State(store: map<string, Record>, links: map<string, string>)

  /** `s.indexOf(x)`: the first position of `x`, or -1 when it is absent. */
  function IndexOf<T(==)>(s: seq<T>, x: T): (i: int)
    ensures -1 <= i < |s|
    ensures i == -1 <==> x !in s
    ensures 0 <= i ==> s[i] == x && x !in s[..i]
  {
    if s == [] then -1
    else if s[0] == x then 0
    else
      var j := IndexOf(s[1..], x);
      if j == -1 then -1
      else
        assert s[..j + 1] == [s[0]] + s[1..][..j];
        j + 1
  }

  /** `s.splice(i, 1)`: `s` without its element at `i`, the others in order. */
  function Splice<T>(s: seq<T>, i: nat): (r: seq<T>)
    requires i < |s|
    ensures |r| == |s| - 1
    ensures forall k :: 0 <= k < i ==> r[k] == s[k]
    ensures forall k :: i <= k < |r| ==> r[k] == s[k + 1]
    ensures multiset(r) + multiset{s[i]} == multiset(s)
  {
    assert s == s[..i] + [s[i]] + s[i + 1..];
    s[..i] + s[i + 1..]
  }

  /** Every record is filed under its own id, as the store names each file after the id. */
  predicate Keyed(store: map<string, Record>)
  {
    forall name :: name in store ==> store[name].id == name
  }

  /** No record with an empty version list is stored. */
  predicate NoEmptyRecords(store: map<string, Record>)
  {
    forall name :: name in store ==> store[name].versions != []
  }

  /** The record of `name` has an active index inside its versions, and the
      link of `name` targets the active version. */
  predicate Consistent(name: string, rec: Record, links: map<string, string>)
  {
    && rec.id == name
    && 0 <= rec.version < |rec.versions|
    && name in links
    && links[name] == rec.versions[rec.version]
  }

  /** The registry invariant: one link per record, each record consistent with its link. */
  predicate Invariant(st: State)
  {
    && st.links.Keys == st.store.Keys
    && forall name :: name in st.store ==> Consistent(name, st.store[name], st.links)
  }

  /** `add`: append to an existing record, or create the record and its link. */
  function AddNext(st: State, name: string, version: string): State
  {
    if name in st.store then
      var cli := st.store[name];
      State(st.store[name := cli.(versions := cli.versions + [version])], st.links)
    else
      State(st.store[name := Record(name, 0, [version])], st.links[name := version])
  }

  /** `change`: point the record and the link at the first occurrence of `version`. */
  function SwitchNext(st: State, name: string, version: string): State
  {
    if name !in st.store then st
    else
      var cli := st.store[name];
      var index := IndexOf(cli.versions, version);
      if index < 0 then st
      else State(st.store[name := cli.(version := index)], st.links[name := version])
  }

  /** `remove`: drop the whole record and its link when it has one version;
      otherwise drop the first occurrence of `version`, falling back to index 0
      and relinking only when that occurrence was the active index. */
  function RemoveNext(st: State, name: string, version: string): State
  {
    if name !in st.store then st
    else
      var cli := st.store[name];
      if |cli.versions| == 1 then State(st.store - {name}, st.links - {name})
      else
        var index := IndexOf(cli.versions, version);
        if index < 0 then st
        else
          var rest := Splice(cli.versions, index);
          if cli.version == index then
            State(st.store[name := Record(cli.id, 0, rest)], st.links[name := rest[0]])
          else
            State(st.store[name := cli.(versions := rest)], st.links)
  }
}
