// The files a merge writes.

module MergeResults {
  import opened InternalKeys
  import opened MergingIterators
  import opened Versions
  import opened VersionEdits
  import opened CompactionInputs
  import opened LevelInvariants
  import opened Compactions

  // ---- Reading the inputs through the merging iterator

  method ReadAll(it: MergingIterator) returns (input: seq<Entry>)
    requires it.WellFormed() && DistinctStamps(it.all)
    modifies it`current, it`direction, it.children
    ensures Sorted(input) && Elements(input) == it.all
  {
    hide it.Base, it.WellFormed;
    input := [];
    it.SeekToFirst();
    Started(it.all, it.Here());
    while it.IsValid()
      invariant it.WellFormed()
      invariant ReadUpTo(it.all, input, it.Here())
      decreases it.all - Elements(input)
    {
      ghost var before := input;
      var e := it.Entry();
      input := input + [e];
      it.Next();
      Advanced(it.all, before, e, it.Here());
    }
    assert Elements(input) == it.all;
  }

  // `input` is, in order, everything before the position.
  ghost predicate ReadUpTo(all: set<Entry>, input: seq<Entry>, here: Option<Entry>) {
    && Sorted(input)
    && (forall e :: e in input <==> e in all && (here.Some? ==> Less(e.key, here.value.key)))
  }

  lemma Started(all: set<Entry>, here: Option<Entry>)
    requires LandsFirst(all, here)
    ensures ReadUpTo(all, [], here)
  {
  }

  lemma Advanced(all: set<Entry>, input: seq<Entry>, e: Entry, next: Option<Entry>)
    requires ReadUpTo(all, input, Some(e)) && e in all
    requires DistinctStamps(all)
    requires LandsAfter(all, e.key, next)
    ensures ReadUpTo(all, input + [e], next)
    ensures all - Elements(input + [e]) < all - Elements(input)
  {
    assert e !in input && e in input + [e] by {
      LessIsStrictTotalOrder(e.key, e.key, e.key);
    }
    forall x | x in all
      ensures x in input + [e] <==> (next.Some? ==> Less(x.key, next.value.key))
    {
      LessIsStrictTotalOrder(x.key, e.key, x.key);
      if next.Some? {
        LessIsStrictTotalOrder(x.key, e.key, next.value.key);
      }
    }
    assert e in all - Elements(input) && e !in all - Elements(input + [e]);
  }

  // ---- Output files

  function Runs(outs: seq<File>): (r: seq<seq<Entry>>)
    ensures |r| == |outs|
  {
    seq(|outs|, i requires 0 <= i < |outs| => outs[i].entries)
  }

  // Files that hold, cut at will, what DoCompactionWork keeps of the merged inputs.
  ghost predicate IsMergeOutput(c: Compaction, base: Version, ss: SequenceNumber, outs: seq<File>) {
    exists input: seq<Entry> ::
      && Sorted(input) && Elements(input) == EntriesOf(Inputs(c))
      && Flatten(Runs(outs)) == Kept(input, |input|, ss, base, c.level)
  }

  lemma {:induction false} FlattenMembers(outs: seq<File>, n: nat)
    requires n <= |outs|
    ensures forall e :: e in Flatten(Runs(outs)[..n]) <==> exists i :: 0 <= i < n && e in outs[i].entries
    ensures Sorted(Flatten(Runs(outs)[..n])) ==> forall i, j | 0 <= i < j < n :: Less(Largest(outs[i]), Smallest(outs[j]))
  {
    if n != 0 {
      FlattenMembers(outs, n - 1);
      var init, last := Flatten(Runs(outs)[..n-1]), outs[n-1].entries;
      assert Runs(outs)[..n] == Runs(outs)[..n-1] + [last];
      FlattenSnoc(Runs(outs)[..n-1], last);
      assert Flatten(Runs(outs)[..n]) == init + last;
      if Sorted(init + last) {
        PrefixIsSorted(init, last);
        forall i | 0 <= i < n - 1
          ensures Less(Largest(outs[i]), Smallest(outs[n-1]))
        {
          var e := outs[i].entries[|outs[i].entries|-1];
          assert e in init;
          var k :| 0 <= k < |init| && init[k] == e;
          assert (init + last)[k] == e && (init + last)[|init|] == last[0];
        }
      }
    }
  }

  lemma PrefixIsSorted(a: seq<Entry>, b: seq<Entry>)
    requires Sorted(a + b)
    ensures Sorted(a)
  {
    forall i, j | 0 <= i < j < |a|
      ensures Less(a[i].key, a[j].key)
    {
      assert (a + b)[i] == a[i] && (a + b)[j] == a[j];
    }
  }

  lemma MergeOutputIs(c: Compaction, base: Version, ss: SequenceNumber, outs: seq<File>)
    requires IsMergeOutput(c, base, ss, outs)
    ensures EntriesOf(outs) == KeptSet(EntriesOf(Inputs(c)), ss, base, c.level)
    ensures forall i, j | 0 <= i < j < |outs| :: Less(Largest(outs[i]), Smallest(outs[j]))
  {
    hide Dropped;
    var input: seq<Entry> :| Sorted(input) && Elements(input) == EntriesOf(Inputs(c))
                             && Flatten(Runs(outs)) == Kept(input, |input|, ss, base, c.level);
    assert input[..|input|] == input && Runs(outs)[..|outs|] == Runs(outs);
    KeptMembers(input, |input|, ss, base, c.level);
    KeptIsSorted(input, |input|, ss, base, c.level);
    FlattenMembers(outs, |outs|);
    forall e
      ensures e in EntriesOf(outs) <==> e in Flatten(Runs(outs))
    {
      if e in EntriesOf(outs) {
        var f :| f in outs && e in f.entries;
        var i :| 0 <= i < |outs| && outs[i] == f;
      }
    }
  }

  // Outputs with fresh numbers of their own fit into the version.
  lemma MergeOutputFits(v: Version, c: Compaction, base: Version, ss: SequenceNumber, outs: seq<File>)
    requires IsMergeOutput(c, base, ss, outs)
    requires forall i, j | 0 <= i < j < |outs| :: outs[i].number != outs[j].number
    requires forall o, l, f | o in outs && 0 <= l < NUM_LEVELS && f in v[l] :: f.number != o.number
    ensures OutputsFit(v, c, outs)
  {
    MergeOutputIs(c, base, ss, outs);
    hide Dropped, IsMergeOutput;
    forall o, e | o in outs && e in o.entries
      ensures Holds(Inputs(c), e)
    {
      assert e in EntriesOf(outs);
    }
  }
}
