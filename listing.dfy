/** What `list` prints: one block per selected record, one line per version,
    the active one marked; or the "No entries found" outcome. */
module Listing {
  import opened Records

  datatype Option<T> = None | Some(value: T)

  /** One printed line: the 1-based position, the version, and the active marker. */
  datatype Line = Line(number: int, version: string, active: bool)

  /** The lines printed under one tool's name. */
  datatype Block = Block(id: string, lines: seq<Line>)

  /** Either the printed blocks, or "No entries found" (exit code 1), naming the
      tool unless every tool was asked for or the name is empty (a falsy string). */
  datatype ListResult = Listed(blocks: seq<Block>) | NoEntries(name: Option<string>)

  /** The lines of one record, marking the position equal to its active index. */
  function Lines(cli: Record): seq<Line>
  {
    seq(|cli.versions|, i requires 0 <= i < |cli.versions| => Line(i + 1, cli.versions[i], cli.version == i))
  }

  /** `list` prints a record when its id is the requested name or the name is `all`. */
  predicate Selects(name: string, cli: Record)
  {
    name == cli.id || name == "all"
  }

  /** The blocks printed for `clis`, walked in order. */
  function Selected(clis: seq<Record>, name: string): seq<Block>
    decreases |clis|
  {
    if clis == [] then []
    else
      var last := clis[|clis| - 1];
      Selected(clis[..|clis| - 1], name) + if Selects(name, last) then [Block(last.id, Lines(last))] else []
  }

  /** The outcome of `list` over the records `clis` as the store lists them. */
  function ListingOf(clis: seq<Record>, name: string): ListResult
  {
    var blocks := Selected(clis, name);
    if blocks == [] then NoEntries(if name == "all" || name == "" then None else Some(name)) else Listed(blocks)
  }

  /** The records of `store` in the order the store lists their names. */
  function RecordsIn(store: map<string, Record>, order: seq<string>): (clis: seq<Record>)
    requires forall k :: 0 <= k < |order| ==> order[k] in store
    ensures |clis| == |order|
    ensures forall k :: 0 <= k < |order| ==> clis[k] == store[order[k]]
  {
    seq(|order|, k requires 0 <= k < |order| => store[order[k]])
  }

  /** The inner loop of `list`: one line per version, marking the active index. */
  method RenderLines(cli: Record) returns (lines: seq<Line>)
    ensures lines == Lines(cli)
  {
    lines := [];
    var index := 0;
    while index < |cli.versions|
      invariant 0 <= index <= |cli.versions|
      invariant lines == Lines(cli)[..index]
    {
      var marked := cli.version == index;
      lines := lines + [Line(index + 1, cli.versions[index], marked)];
      index := index + 1;
    }
  }

  /** Exactly the line at the active index carries the marker, and it shows the
      active version; when the index is outside the versions no line is marked. */
  lemma OneActiveMarker(cli: Record)
    ensures |Lines(cli)| == |cli.versions|
    ensures forall i :: 0 <= i < |cli.versions| ==> Lines(cli)[i].version == cli.versions[i]
    ensures (exists i :: 0 <= i < |cli.versions| && Lines(cli)[i].active)
            <==> 0 <= cli.version < |cli.versions|
    ensures forall i, j ::
              (0 <= i < |cli.versions| && 0 <= j < |cli.versions| && Lines(cli)[i].active && Lines(cli)[j].active)
              ==> i == j
    ensures 0 <= cli.version < |cli.versions| ==>
              Lines(cli)[cli.version].active && Lines(cli)[cli.version].version == cli.versions[cli.version]
  {
    if 0 <= cli.version < |cli.versions| {
      assert Lines(cli)[cli.version].active;
    }
  }

  /** `list all` prints every record, in the order the store lists them. */
  lemma {:induction false} SelectedAll(clis: seq<Record>)
    ensures |Selected(clis, "all")| == |clis|
    ensures forall k :: 0 <= k < |clis| ==> Selected(clis, "all")[k] == Block(clis[k].id, Lines(clis[k]))
    decreases |clis|
  {
    if clis != [] {
      SelectedAll(clis[..|clis| - 1]);
    }
  }

  /** `list <name>` prints only records whose id is `name`, and prints something
      exactly when such a record exists. */
  lemma {:induction false} SelectedByName(clis: seq<Record>, name: string)
    requires name != "all"
    ensures forall b :: b in Selected(clis, name) ==> b.id == name
    ensures Selected(clis, name) == [] <==> forall k :: 0 <= k < |clis| ==> clis[k].id != name
    decreases |clis|
  {
    if clis != [] {
      var init := clis[..|clis| - 1];
      SelectedByName(init, name);
      assert forall k :: 0 <= k < |init| ==> init[k] == clis[k];
    }
  }

  /** When exactly one record has the id `name`, `list <name>` prints that record alone. */
  lemma {:induction false} SelectedSingle(clis: seq<Record>, name: string, k: nat)
    requires name != "all" && k < |clis| && clis[k].id == name
    requires forall j :: 0 <= j < |clis| && j != k ==> clis[j].id != name
    ensures Selected(clis, name) == [Block(name, Lines(clis[k]))]
    decreases |clis|
  {
    var init := clis[..|clis| - 1];
    if k == |clis| - 1 {
      SelectedByName(init, name);
    } else {
      SelectedSingle(init, name, k);
    }
  }

  /** Over a store listed in full, each name once: `list all` fails exactly on an
      empty store, and `list <name>` prints the record of `name` alone, or fails
      when there is none. */
  lemma ListingOfStore(store: map<string, Record>, order: seq<string>, name: string)
    requires Keyed(store)
    requires forall n :: n in store <==> n in order
    requires forall i, j :: 0 <= i < j < |order| ==> order[i] != order[j]
    ensures var r := ListingOf(RecordsIn(store, order), name);
      if name == "all" then
        (r.NoEntries? <==> store == map[]) && (r.NoEntries? ==> r.name == None)
      else if name in store then r == Listed([Block(name, Lines(store[name]))])
      else r == NoEntries(if name == "" then None else Some(name))
  {
    var clis := RecordsIn(store, order);
    if name == "all" {
      SelectedAll(clis);
      if order != [] {
        assert order[0] in store;
      }
    } else {
      SelectedByName(clis, name);
      if name in store {
        var k :| 0 <= k < |order| && order[k] == name;
        SelectedSingle(clis, name, k);
      }
    }
  }
}
