/** The completion lists offered by the interactive prompts of `change`, `add` and `remove`. */
module Suggest {

  /** The prefix test the prompts use: cut `s` to the length of `input`
      (or to its own length when shorter) and compare with `input`. */
  function StartsWith(s: string, input: string): (b: bool)
    ensures b <==> input <= s
  {
    s[..if |input| <= |s| then |input| else |s|] == input
  }

  /** `r` can be obtained from `s` by deleting elements (greedy matching). */
  ghost predicate IsSubsequence(r: seq<string>, s: seq<string>)
    decreases |s|
  {
    if r == [] then true
    else if s == [] then false
    else if r[0] == s[0] then IsSubsequence(r[1..], s[1..])
    else IsSubsequence(r, s[1..])
  }

  /** The versions of a record that start with `input`, in their stored order. */
  function SuggestVersions(versions: seq<string>, input: string): (r: seq<string>)
    ensures forall x :: x in r <==> x in versions && input <= x
    ensures forall x :: multiset(r)[x] == if input <= x then multiset(versions)[x] else 0
    ensures IsSubsequence(r, versions)
  {
    if versions == [] then []
    else
      assert versions == [versions[0]] + versions[1..];
      var rest := SuggestVersions(versions[1..], input);
      if StartsWith(versions[0], input) then [versions[0]] + rest else rest
  }

  /** The tool names that start with `input`, followed by `input` itself when
      it is not already among them, so that a new name can be chosen. */
  function SuggestClis(ids: seq<string>, input: string): (r: seq<string>)
    ensures input in r
    ensures forall x :: x in r <==> x == input || (x in ids && input <= x)
    ensures forall x :: x != input ==> multiset(r)[x] == if input <= x then multiset(ids)[x] else 0
    ensures multiset(r)[input] == if input in ids then multiset(ids)[input] else 1
    ensures multiset(ids)[input] <= 1 ==> multiset(r)[input] == 1
    ensures input in ids ==> IsSubsequence(r, ids)
    ensures IsSubsequence(r, ids + [input])
  {
    var results := SuggestVersions(ids, input);
    SubsequenceExtend(results, ids, input);
    if input in results then results else results + [input]
  }

  /** Appending one element to the longer sequence, or to both, keeps a subsequence one. */
  lemma {:induction false} SubsequenceExtend(r: seq<string>, s: seq<string>, x: string)
    requires IsSubsequence(r, s)
    ensures IsSubsequence(r, s + [x])
    ensures IsSubsequence(r + [x], s + [x])
    decreases |s|
  {
    if s == [] {
      assert r == [];
      assert ([x] + [])[1..] == [];
    } else {
      assert (s + [x])[1..] == s[1..] + [x];
      if r == [] {
        assert r + [x] == [x];
        if s[0] != x {
          SubsequenceExtend(r, s[1..], x);
        }
      } else {
        assert (r + [x])[0] == r[0];
        assert (r + [x])[1..] == r[1..] + [x];
        if r[0] == s[0] {
          SubsequenceExtend(r[1..], s[1..], x);
        } else {
          SubsequenceExtend(r, s[1..], x);
        }
      }
    }
  }
}
