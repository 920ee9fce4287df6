/**
 Configuration options and how an incoming list of them is merged with an existing one: by id, in place, new ones last.

 A JSON value either holds a list of options, alone or under a key of an object, or is plain text to this model.
 */
module ConfigOptions {
  import opened Wrappers

  datatype ConfigOption = ConfigOption(id: string, body: string)

  datatype Wrapping = Bare | Keyed(key: string, others: string)

  datatype Value = Options(options: seq<ConfigOption>, wrapping: Wrapping) | Plain(text: string)

  // The first option with this id, or the length of the list.
  function Find(options: seq<ConfigOption>, id: string): (i: nat)
    ensures i <= |options| && (i < |options| ==> options[i].id == id)
    ensures forall k :: 0 <= k < i ==> options[k].id != id
  {
    if options == [] || options[0].id == id then 0 else 1 + Find(options[1..], id)
  }

  function Put(options: seq<ConfigOption>, option: ConfigOption): seq<ConfigOption> {
    var i := Find(options, option.id);
    if i < |options| then options[i := option] else options + [option]
  }

  function PutAll(options: seq<ConfigOption>, incoming: seq<ConfigOption>): seq<ConfigOption> {
    if incoming == [] then options
    else Put(PutAll(options, incoming[..|incoming| - 1]), incoming[|incoming| - 1])
  }

  // With nothing to merge with, the incoming list is taken as it is, repeated ids included.
  function Merged(existing: Option<seq<ConfigOption>>, incoming: seq<ConfigOption>): seq<ConfigOption> {
    if existing.None? then incoming else PutAll(existing.value, incoming)
  }

  method MergeConfigOptions(existing: Option<seq<ConfigOption>>, incoming: seq<ConfigOption>)
    returns (merged: seq<ConfigOption>)
    ensures merged == Merged(existing, incoming)
  {
    if existing.None? {
      return incoming;
    }
    merged := existing.value;
    var n := 0;
    while n < |incoming|
      invariant 0 <= n <= |incoming| && merged == PutAll(existing.value, incoming[..n])
    {
      assert incoming[..n + 1][..n] == incoming[..n];
      var option := incoming[n];
      var i := Find(merged, option.id);
      if i < |merged| {
        merged := merged[i := option];
      } else {
        merged := merged + [option];
      }
      n := n + 1;
    }
    assert incoming[..n] == incoming;
  }

  function OptionsOf(value: Option<Value>): Option<seq<ConfigOption>> {
    if value.Some? && value.value.Options? then Some(value.value.options) else None
  }

  // The result is wrapped as the incoming value was.
  function MergeConfigOptionValues(existing: Option<Value>, incoming: Value): Option<Value> {
    if incoming.Plain? then None else Some(incoming.(options := Merged(OptionsOf(existing), incoming.options)))
  }

  // ----- What a merge means -----

  ghost function At(options: seq<ConfigOption>, id: string): Option<ConfigOption> {
    var i := Find(options, id);
    if i < |options| then Some(options[i]) else None
  }

  // The last option with this id.
  ghost function Latest(options: seq<ConfigOption>, id: string): Option<ConfigOption> {
    if options == [] then None
    else
      var last := options[|options| - 1];
      if last.id == id then Some(last) else Latest(options[..|options| - 1], id)
  }

  lemma FindIs(options: seq<ConfigOption>, id: string, i: nat)
    requires i <= |options| && (i < |options| ==> options[i].id == id)
    requires forall k :: 0 <= k < i ==> options[k].id != id
    ensures Find(options, id) == i
  {
    var j := Find(options, id);
    assert j < |options| ==> options[j].id == id;
  }

  lemma PutChangesOneId(options: seq<ConfigOption>, option: ConfigOption, id: string)
    ensures At(Put(options, option), id) == if option.id == id then Some(option) else At(options, id)
    ensures |Put(options, option)| >= |options|
    ensures forall i :: 0 <= i < |options| ==> Put(options, option)[i].id == options[i].id
  {
    var put := Put(options, option);
    var i := Find(options, id);
    if i < |options| || option.id == id {
      FindIs(put, id, i);
    } else {
      FindIs(put, id, |put|);
    }
  }

  /**
   After a merge every id has its latest incoming option, and where nothing came in the one it had; what was there keeps
   its place.
   */
  lemma {:induction false} MergedById(existing: seq<ConfigOption>, incoming: seq<ConfigOption>, id: string)
    ensures var merged := Merged(Some(existing), incoming);
            At(merged, id) == (if Latest(incoming, id).Some? then Latest(incoming, id) else At(existing, id)) &&
            |merged| >= |existing| && forall i :: 0 <= i < |existing| ==> merged[i].id == existing[i].id
    decreases |incoming|
  {
    if incoming != [] {
      var before, last := incoming[..|incoming| - 1], incoming[|incoming| - 1];
      MergedById(existing, before, id);
      PutChangesOneId(PutAll(existing, before), last, id);
    }
  }

  /** Merges with two lists give the same options if and only if the lists agree on every id that is not incoming. */
  lemma MergesAgreeIff(a: seq<ConfigOption>, b: seq<ConfigOption>, incoming: seq<ConfigOption>)
    ensures (forall id :: At(Merged(Some(a), incoming), id) == At(Merged(Some(b), incoming), id)) <==>
            (forall id :: Latest(incoming, id).None? ==> At(a, id) == At(b, id))
  {
    forall id
      ensures At(Merged(Some(a), incoming), id) == At(Merged(Some(b), incoming), id) <==>
              (Latest(incoming, id).None? ==> At(a, id) == At(b, id))
    {
      MergedById(a, incoming, id);
      MergedById(b, incoming, id);
    }
  }

  // ----- When two merges give the same list -----

  ghost function Ids(options: seq<ConfigOption>): (ids: seq<string>)
    ensures |ids| == |options| && forall i :: 0 <= i < |ids| ==> ids[i] == options[i].id
  {
    seq(|options|, i requires 0 <= i < |options| => options[i].id)
  }

  // The ids after a merge, in order: those there were, then the new ones as they come in.
  ghost function AddIds(ids: seq<string>, incoming: seq<string>): seq<string> {
    if incoming == [] then ids
    else
      var before, last := AddIds(ids, incoming[..|incoming| - 1]), incoming[|incoming| - 1];
      if last in before then before else before + [last]
  }

  ghost predicate DistinctIds(options: seq<ConfigOption>) {
    forall i, j :: 0 <= i < j < |options| ==> options[i].id != options[j].id
  }

  lemma PutKeepsDistinct(options: seq<ConfigOption>, option: ConfigOption)
    requires DistinctIds(options)
    ensures DistinctIds(Put(options, option))
  {
  }

  lemma PutIds(options: seq<ConfigOption>, option: ConfigOption)
    ensures Ids(Put(options, option)) ==
            if option.id in Ids(options) then Ids(options) else Ids(options) + [option.id]
  {
    var i := Find(options, option.id);
    if i < |options| {
      assert Ids(options)[i] == option.id;
    }
  }

  lemma {:induction false} MergedIds(existing: seq<ConfigOption>, incoming: seq<ConfigOption>)
    ensures Ids(PutAll(existing, incoming)) == AddIds(Ids(existing), Ids(incoming))
    ensures DistinctIds(existing) ==> DistinctIds(PutAll(existing, incoming))
    decreases |incoming|
  {
    if incoming != [] {
      var before, last := incoming[..|incoming| - 1], incoming[|incoming| - 1];
      MergedIds(existing, before);
      PutIds(PutAll(existing, before), last);
      if DistinctIds(existing) {
        PutKeepsDistinct(PutAll(existing, before), last);
      }
      assert Ids(incoming)[..|incoming| - 1] == Ids(before);
    }
  }

  // A list without repeated ids is its ids in order and what each of them has.
  lemma SameListIff(a: seq<ConfigOption>, b: seq<ConfigOption>)
    requires DistinctIds(a) && DistinctIds(b)
    ensures a == b <==> Ids(a) == Ids(b) && forall id :: At(a, id) == At(b, id)
  {
    if Ids(a) == Ids(b) && forall id :: At(a, id) == At(b, id) {
      forall i | 0 <= i < |a|
        ensures a[i] == b[i]
      {
        assert Ids(a)[i] == Ids(b)[i];
        FindIs(a, a[i].id, i);
        FindIs(b, a[i].id, i);
        assert At(a, a[i].id) == At(b, a[i].id);
      }
    }
  }

  /**
   Merges of one list into two lists without repeated ids are the same list if and only if they end with the same ids in
   the same order and the two lists agree on every id that is not incoming.
   */
  lemma MergedListsAreEqualIff(a: seq<ConfigOption>, b: seq<ConfigOption>, incoming: seq<ConfigOption>)
    requires DistinctIds(a) && DistinctIds(b)
    ensures Merged(Some(a), incoming) == Merged(Some(b), incoming) <==>
            AddIds(Ids(a), Ids(incoming)) == AddIds(Ids(b), Ids(incoming)) &&
            forall id :: Latest(incoming, id).None? ==> At(a, id) == At(b, id)
  {
    MergedIds(a, incoming);
    MergedIds(b, incoming);
    SameListIff(PutAll(a, incoming), PutAll(b, incoming));
    MergesAgreeIff(a, b, incoming);
  }

  // ----- Merged values -----

  lemma EmptyListMerges(incoming: seq<ConfigOption>)
    ensures Ids(PutAll([], incoming)) == AddIds([], Ids(incoming))
    ensures DistinctIds(PutAll([], incoming))
  {
    MergedIds([], incoming);
    assert Ids([]) == [];
  }

  lemma {:induction false} DistinctListIsPutWhole(incoming: seq<ConfigOption>)
    requires DistinctIds(incoming)
    ensures PutAll([], incoming) == incoming
    decreases |incoming|
  {
    if incoming != [] {
      var before, last := incoming[..|incoming| - 1], incoming[|incoming| - 1];
      DistinctListIsPutWhole(before);
      assert incoming == before + [last];
      assert Find(before, last.id) == |before|;
    }
  }

  /**
   With nothing to merge with, every id has its first incoming option, repeated ids stay repeated,
     and merging with an empty
   list instead makes no difference if and only if none is repeated.
   */
  lemma FirstMerge(incoming: seq<ConfigOption>, id: string)
    ensures At(Merged(None, incoming), id) == At(incoming, id) && |Merged(None, incoming)| == |incoming|
    ensures Merged(None, incoming) == Merged(Some([]), incoming) <==> DistinctIds(incoming)
  {
    EmptyListMerges(incoming);
    if DistinctIds(incoming) {
      DistinctListIsPutWhole(incoming);
    }
  }

  /**
   A value that is merged in keeps its wrapping; by id its options win over those there were,
     and options can only be there
   in a value that holds a list.  Text merges into nothing.
   */
  lemma MergedValueById(existing: Option<Value>, incoming: Value, id: string)
    ensures MergeConfigOptionValues(existing, incoming).Some? <==> incoming.Options?
    ensures incoming.Options? ==>
              var merged := MergeConfigOptionValues(existing, incoming).value;
              merged.Options? && merged.wrapping == incoming.wrapping &&
              At(merged.options, id) ==
              if existing.None? || existing.value.Plain? then At(incoming.options, id)
              else if Latest(incoming.options, id).Some? then Latest(incoming.options, id)
              else At(existing.value.options, id)
  {
    if incoming.Options? && existing.Some? && existing.value.Options? {
      MergedById(existing.value.options, incoming.options, id);
    }
  }
}
