// The merging iterator: a two-direction cursor over the union of sorted children.

module MergingIterators {
  import opened InternalKeys

  // ---- Where a cursor over a set of entries may land; None is the invalid position

  ghost predicate LandsFirst(all: set<Entry>, r: Option<Entry>) {
    match r
    case None => all == {}
    case Some(e) => e in all && forall x | x in all :: !Less(x.key, e.key)
  }

  ghost predicate LandsLast(all: set<Entry>, r: Option<Entry>) {
    match r
    case None => all == {}
    case Some(e) => e in all && forall x | x in all :: !Less(e.key, x.key)
  }

  ghost predicate LandsAtOrAfter(all: set<Entry>, k: InternalKey, r: Option<Entry>) {
    match r
    case None => forall x | x in all :: Less(x.key, k)
    case Some(e) => e in all && !Less(e.key, k) && forall x | x in all :: Less(x.key, e.key) ==> Less(x.key, k)
  }

  ghost predicate LandsAfter(all: set<Entry>, k: InternalKey, r: Option<Entry>) {
    match r
    case None => forall x | x in all :: !Less(k, x.key)
    case Some(e) => e in all && Less(k, e.key) && forall x | x in all :: Less(x.key, e.key) ==> !Less(k, x.key)
  }

  ghost predicate LandsBefore(all: set<Entry>, k: InternalKey, r: Option<Entry>) {
    match r
    case None => forall x | x in all :: !Less(x.key, k)
    case Some(e) => e in all && Less(e.key, k) && forall x | x in all :: Less(e.key, x.key) ==> !Less(x.key, k)
  }

  // ---- One child: a position in a sorted sequence; |data| is the invalid position

  datatype Cursor = Cursor(data: seq<Entry>, pos: nat) {
    ghost predicate WellFormed() {
      Sorted(data) && pos <= |data|
    }

    predicate Valid() {
      pos < |data|
    }

    function Key(): InternalKey
      requires Valid()
    {
      data[pos].key
    }

    function Seek(k: InternalKey): Cursor {
      this.(pos := SeekIndex(data, k))
    }

    function SeekToFirst(): Cursor {
      this.(pos := 0)
    }

    function SeekToLast(): Cursor {
      this.(pos := if data == [] then 0 else |data| - 1)
    }

    function Next(): Cursor
      requires Valid()
    {
      this.(pos := pos + 1)
    }

    function SkipEqual(k: InternalKey): Cursor {
      if Valid() && Compare(k, Key()) == 0 then Next() else this
    }

    function Prev(): Cursor
      requires Valid()
    {
      this.(pos := if pos == 0 then |data| else pos - 1)
    }
  }

  datatype Direction = Forward | Reverse

  class MergingIterator {
    const children: array<Cursor>
    var current: int  // index of the child that holds the position; -1 when there is none
    var direction: Direction

    ghost const contents: seq<seq<Entry>>
    ghost const all: set<Entry>

    ghost predicate Base()
      reads children
    {
      && |contents| == children.Length
      && (forall i | 0 <= i < children.Length :: children[i].WellFormed() && children[i].data == contents[i])
      && (forall i, e | 0 <= i < |contents| && e in contents[i] :: e in all)
      && (forall e | e in all :: exists i :: 0 <= i < |contents| && e in contents[i])
      && (forall i, j, m, n | 0 <= i < j < |contents| && 0 <= m < |contents[i]| && 0 <= n < |contents[j]| ::
            contents[i][m].key != contents[j][n].key)
    }

    // Moving forward, every child is at its first entry not before key(). Moving back, the
    // current child is at key() and every other child is at its last entry before key().
    ghost predicate WellFormed()
      reads this, children
    {
      && Base()
      && -1 <= current < children.Length
      && (IsValid() ==>
            && children[current].Valid()
            && forall i | 0 <= i < children.Length ::
                 var r := SeekIndex(contents[i], children[current].Key());
                 children[i].pos ==
                 if direction.Forward? || i == current then r
                 else if r == 0 then |contents[i]| else r - 1)
    }

    predicate IsValid()
      reads this
    {
      current != -1
    }

    function Entry(): (e: Entry)
      requires WellFormed() && IsValid()
      reads this, children
      ensures e in all
    {
      children[current].data[children[current].pos]
    }

    ghost function Here(): Option<Entry>
      requires WellFormed()
      reads this, children
    {
      if IsValid() then Some(Entry()) else None
    }

    constructor (children: array<Cursor>, ghost all: set<Entry>)
      requires forall i | 0 <= i < children.Length :: children[i].WellFormed()
      requires forall i | 0 <= i < children.Length :: forall e | e in children[i].data :: e in all
      requires forall e | e in all :: exists i :: 0 <= i < children.Length && e in children[i].data
      requires forall i, j, m, n | 0 <= i < j < children.Length && 0 <= m < |children[i].data| && 0 <= n < |children[j].data| ::
                 children[i].data[m].key != children[j].data[n].key
      ensures WellFormed() && !IsValid() && this.children == children && this.all == all
    {
      this.children, this.all := children, all;
      contents := seq(children.Length, i requires 0 <= i < children.Length reads children => children[i].data);
      current, direction := -1, Forward;
    }

    method FindSmallest()
      requires Base()
      modifies this`current
      ensures -1 <= current < children.Length
      ensures current == -1 ==> forall i | 0 <= i < children.Length :: !children[i].Valid()
      ensures current != -1 ==> children[current].Valid()
      ensures current != -1 ==> forall i | 0 <= i < children.Length && children[i].Valid() ::
                !Less(children[i].Key(), children[current].Key())
    {
      var smallest := -1;
      for i := 0 to children.Length
        invariant -1 <= smallest < i
        invariant smallest == -1 ==> forall j | 0 <= j < i :: !children[j].Valid()
        invariant smallest != -1 ==> children[smallest].Valid()
        invariant smallest != -1 ==> forall j | 0 <= j < i && children[j].Valid() ::
                    !Less(children[j].Key(), children[smallest].Key())
      {
        if children[i].Valid() {
          if smallest == -1 {
            smallest := i;
          } else if Compare(children[i].Key(), children[smallest].Key()) < 0 {
            smallest := i;
          }
        }
      }
      current := smallest;
    }

    method FindLargest()
      requires Base()
      modifies this`current
      ensures -1 <= current < children.Length
      ensures current == -1 ==> forall i | 0 <= i < children.Length :: !children[i].Valid()
      ensures current != -1 ==> children[current].Valid()
      ensures current != -1 ==> forall i | 0 <= i < children.Length && children[i].Valid() ::
                !Less(children[current].Key(), children[i].Key())
    {
      var largest := -1;
      for i := children.Length downto 0
        invariant largest == -1 || i <= largest < children.Length
        invariant largest == -1 ==> forall j | i <= j < children.Length :: !children[j].Valid()
        invariant largest != -1 ==> children[largest].Valid()
        invariant largest != -1 ==> forall j | i <= j < children.Length && children[j].Valid() ::
                    !Less(children[largest].Key(), children[j].Key())
      {
        if children[i].Valid() {
          if largest == -1 {
            largest := i;
          } else if Compare(children[i].Key(), children[largest].Key()) > 0 {
            largest := i;
          }
        }
      }
      current := largest;
    }

    // ---- A cut divides every child into a lower and an upper part

    ghost predicate IsCut(cut: seq<nat>)
    {
      && |cut| == |contents|
      && (forall i | 0 <= i < |cut| :: cut[i] <= |contents[i]|)
      && forall i, j, m, n | 0 <= i < |cut| && 0 <= j < |cut| && 0 <= m < cut[i] && cut[j] <= n < |contents[j]| ::
           Less(contents[i][m].key, contents[j][n].key)
    }

    ghost function CutAt(k: InternalKey): (cut: seq<nat>)
      ensures |cut| == |contents|
      ensures forall i | 0 <= i < |cut| :: cut[i] == SeekIndex(contents[i], k)
    {
      seq(|contents|, i requires 0 <= i < |contents| => SeekIndex(contents[i], k))
    }

    lemma CutAtIsCut(k: InternalKey)
      requires Base()
      ensures IsCut(CutAt(k))
      ensures forall i, m | 0 <= i < |contents| && 0 <= m < |contents[i]| :: m < CutAt(k)[i] <==> Less(contents[i][m].key, k)
    {
      forall i | 0 <= i < |contents|
        ensures forall m | 0 <= m < |contents[i]| :: m < CutAt(k)[i] <==> Less(contents[i][m].key, k)
      {
        assert children[i].WellFormed();
        SeekSplits(contents[i], k);
      }
      forall i, j, m, n | 0 <= i < |contents| && 0 <= j < |contents| && 0 <= m < CutAt(k)[i] && CutAt(k)[j] <= n < |contents[j]|
        ensures Less(contents[i][m].key, contents[j][n].key)
      {
        LessIsStrictTotalOrder(contents[i][m].key, contents[j][n].key, k);
        LessIsStrictTotalOrder(contents[j][n].key, contents[i][m].key, k);
      }
    }

    // Children at the first entry above a cut, current at the least of them.
    lemma SettledForward(cut: seq<nat>)
      requires Base() && IsCut(cut)
      requires direction.Forward? && -1 <= current < children.Length
      requires forall i | 0 <= i < children.Length :: children[i].pos == cut[i]
      requires current == -1 ==> forall i | 0 <= i < children.Length :: !children[i].Valid()
      requires current != -1 ==> children[current].Valid()
      requires current != -1 ==> forall i | 0 <= i < children.Length && children[i].Valid() ::
                 !Less(children[i].Key(), children[current].Key())
      ensures WellFormed()
      ensures IsValid() ==> cut[current] < |contents[current]| && Entry() == contents[current][cut[current]]
      ensures forall i, m | IsValid() && 0 <= i < |contents| && cut[i] <= m < |contents[i]| :: !Less(contents[i][m].key, Entry().key)
    {
      if current != -1 {
        var k := children[current].Key();
        forall i | 0 <= i < children.Length
          ensures children[i].pos == SeekIndex(contents[i], k)
          ensures forall m | cut[i] <= m < |contents[i]| :: !Less(contents[i][m].key, k)
        {
          assert children[i].WellFormed() && children[current].WellFormed();
          assert k == contents[current][cut[current]].key;
          SeekIs(contents[i], k, cut[i]);
          SeekSplits(contents[i], k);
        }
      }
    }

    // Children at the last entry below a cut, current at the greatest of them.
    lemma SettledBackward(cut: seq<nat>)
      requires Base() && IsCut(cut)
      requires direction.Reverse? && -1 <= current < children.Length
      requires forall i | 0 <= i < children.Length :: children[i].pos == if cut[i] == 0 then |contents[i]| else cut[i] - 1
      requires current == -1 ==> forall i | 0 <= i < children.Length :: !children[i].Valid()
      requires current != -1 ==> children[current].Valid()
      requires current != -1 ==> forall i | 0 <= i < children.Length && children[i].Valid() ::
                 !Less(children[current].Key(), children[i].Key())
      ensures WellFormed()
      ensures IsValid() ==> 0 < cut[current] && Entry() == contents[current][cut[current]-1]
      ensures forall i, m | IsValid() && 0 <= i < |contents| && 0 <= m < cut[i] :: !Less(Entry().key, contents[i][m].key)
    {
      if current != -1 {
        assert children[current].WellFormed();
        var top := children[current].Key();
        assert top == contents[current][cut[current]-1].key;
        forall i | 0 <= i < children.Length
          ensures SeekIndex(contents[i], top) == if i == current then cut[i] - 1 else cut[i]
          ensures forall m | 0 <= m < cut[i] :: !Less(top, contents[i][m].key)
        {
          assert children[i].WellFormed();
          if i == current {
            SeekIs(contents[i], top, cut[i] - 1);
            forall m | 0 <= m < cut[i]
              ensures !Less(top, contents[i][m].key)
            {
              LessIsStrictTotalOrder(contents[i][m].key, top, top);
            }
          } else {
            if 0 < cut[i] {
              assert children[i].Valid() && children[i].Key() == contents[i][cut[i]-1].key;
              LessIsStrictTotalOrder(contents[i][cut[i]-1].key, top, top);
            }
            if cut[i] < |contents[i]| {
              LessIsStrictTotalOrder(top, contents[i][cut[i]].key, top);
            }
            SeekIs(contents[i], top, cut[i]);
            SeekSplits(contents[i], top);
            forall m | 0 <= m < cut[i]
              ensures !Less(top, contents[i][m].key)
            {
              LessIsStrictTotalOrder(contents[i][m].key, top, top);
            }
          }
        }
      }
    }

    method SeekToFirst()
      requires WellFormed()
      modifies this`current, this`direction, children
      ensures WellFormed() && LandsFirst(all, Here())
    {
      for i := 0 to children.Length
        invariant Base()
        invariant forall j | 0 <= j < i :: children[j].pos == 0
      {
        children[i] := children[i].SeekToFirst();
      }
      FindSmallest();
      direction := Forward;
      SettledForward(seq(|contents|, i => 0));
    }

    method SeekToLast()
      requires WellFormed()
      modifies this`current, this`direction, children
      ensures WellFormed() && LandsLast(all, Here())
    {
      for i := 0 to children.Length
        invariant Base()
        invariant forall j | 0 <= j < i :: children[j].pos == if contents[j] == [] then 0 else |contents[j]| - 1
      {
        children[i] := children[i].SeekToLast();
      }
      FindLargest();
      direction := Reverse;
      SettledBackward(seq(|contents|, i requires 0 <= i < |contents| => |contents[i]|));
    }

    method Seek(target: InternalKey)
      requires WellFormed()
      modifies this`current, this`direction, children
      ensures WellFormed() && LandsAtOrAfter(all, target, Here())
    {
      for i := 0 to children.Length
        invariant Base()
        invariant forall j | 0 <= j < i :: children[j].pos == SeekIndex(contents[j], target)
      {
        children[i] := children[i].Seek(target);
      }
      FindSmallest();
      direction := Forward;
      CutAtIsCut(target);
      SettledForward(CutAt(target));
    }

    // The cut at the current key, moved past the current entry.
    ghost function CutPast(cur: int, k: InternalKey): (cut: seq<nat>)
      requires 0 <= cur < |contents|
    {
      CutAt(k)[cur := CutAt(k)[cur] + 1]
    }

    lemma CutPastIsCut(cur: int, k: InternalKey)
      requires Base() && 0 <= cur < |contents|
      requires SeekIndex(contents[cur], k) < |contents[cur]| && contents[cur][SeekIndex(contents[cur], k)].key == k
      ensures IsCut(CutPast(cur, k))
      ensures forall i, m | 0 <= i < |contents| && 0 <= m < |contents[i]| ::
                m < CutPast(cur, k)[i] <==> !Less(k, contents[i][m].key)
    {
      CutAtIsCut(k);
      var c := SeekIndex(contents[cur], k);
      forall i, m | 0 <= i < |contents| && 0 <= m < |contents[i]|
        ensures m < CutPast(cur, k)[i] <==> !Less(k, contents[i][m].key)
      {
        assert children[i].WellFormed();
        LessIsStrictTotalOrder(k, contents[i][m].key, k);
        assert i < cur ==> contents[i][m].key != contents[cur][c].key;
        assert cur < i ==> contents[cur][c].key != contents[i][m].key;
        LessIsStrictTotalOrder(contents[cur][c].key, contents[cur][c].key, k);
      }
      forall i, j, m, n | 0 <= i < |contents| && 0 <= j < |contents| && 0 <= m < CutPast(cur, k)[i] && CutPast(cur, k)[j] <= n < |contents[j]|
        ensures Less(contents[i][m].key, contents[j][n].key)
      {
        LessIsStrictTotalOrder(contents[i][m].key, k, contents[j][n].key);
      }
    }

    // Puts every child but the current one at its first entry not before key().
    method PositionOthersAfter()
      requires WellFormed() && IsValid()
      modifies children
      ensures Base() && children[current] == old(children[current])
      ensures forall j | 0 <= j < children.Length && j != current ::
                children[j].pos == SeekIndex(contents[j], old(children[current]).Key())
    {
      var key := children[current].Key();
      for i := 0 to children.Length
        invariant Base() && children[current] == old(children[current])
        invariant forall j | 0 <= j < i && j != current :: children[j].pos == SeekIndex(contents[j], key)
      {
        if i != current {
          var child := children[i].Seek(key);
          child := child.SkipEqual(key);
          children[i] := child;
        }
      }
    }

    // Puts every child but the current one at its last entry before key().
    method PositionOthersBefore()
      requires WellFormed() && IsValid()
      modifies children
      ensures Base() && children[current] == old(children[current])
      ensures forall j | 0 <= j < children.Length && j != current ::
                var r := SeekIndex(contents[j], old(children[current]).Key());
                children[j].pos == if r == 0 then |contents[j]| else r - 1
    {
      var key := children[current].Key();
      for i := 0 to children.Length
        invariant Base() && children[current] == old(children[current])
        invariant forall j | 0 <= j < i && j != current ::
                    var r := SeekIndex(contents[j], key);
                    children[j].pos == if r == 0 then |contents[j]| else r - 1
      {
        if i != current {
          var child := children[i].Seek(key);
          if child.Valid() {
            child := child.Prev();
          } else {
            child := child.SeekToLast();
          }
          children[i] := child;
        }
      }
    }

    // Leaves every child at its first entry after key().
    method StepForward()
      requires WellFormed() && IsValid()
      modifies this`direction, children
      ensures Base() && direction.Forward?
      ensures forall i | 0 <= i < |contents| :: children[i].pos == CutPast(current, old(Entry().key))[i]
    {
      hide Less, Compare, Sorted;
      if direction != Forward {
        PositionOthersAfter();
        direction := Forward;
      }
      children[current] := children[current].Next();
    }

    // Leaves every child at its last entry before key().
    method StepBackward()
      requires WellFormed() && IsValid()
      modifies this`direction, children
      ensures Base() && direction.Reverse?
      ensures forall i | 0 <= i < |contents| ::
                children[i].pos == if CutAt(old(Entry().key))[i] == 0 then |contents[i]| else CutAt(old(Entry().key))[i] - 1
    {
      hide Less, Compare, Sorted;
      if direction != Reverse {
        PositionOthersBefore();
        direction := Reverse;
      }
      children[current] := children[current].Prev();
    }

    method Next()
      requires WellFormed() && IsValid()
      modifies this`current, this`direction, children
      ensures WellFormed() && LandsAfter(all, old(Entry()).key, Here())
    {
      hide Less, Compare, Sorted;
      ghost var key, cur := Entry().key, current;
      CutPastIsCut(cur, key);
      StepForward();
      FindSmallest();
      SettledForward(CutPast(cur, key));
    }

    method Prev()
      requires WellFormed() && IsValid()
      modifies this`current, this`direction, children
      ensures WellFormed() && LandsBefore(all, old(Entry()).key, Here())
    {
      hide Less, Compare, Sorted;
      ghost var key := Entry().key;
      CutAtIsCut(key);
      StepBackward();
      FindLargest();
      SettledBackward(CutAt(key));
    }
  }
}
