// The user-facing iterator: hides old versions, later versions and deletions, over a
// merging iterator of internal entries.

module DbIterators {
  import opened InternalKeys
  import opened MergingIterators

  // ---- The map a user sees at a sequence number

  // `e` is the entry that a read of its user key at `s` returns.
  ghost predicate Shown(all: set<Entry>, s: SequenceNumber, e: Entry) {
    IsNewest(all, e.key.user, s, e) && e.key.kind.Put?
  }

  datatype Bound = Unbounded | AtLeast(user: UserKey) | Above(user: UserKey) | Below(user: UserKey) {
    predicate Admits(u: UserKey) {
      match this
      case Unbounded => true
      case AtLeast(b) => b <= u
      case Above(b) => b < u
      case Below(b) => u < b
    }
  }

  // `r` is the first user key of the visible map within the bound.
  ghost predicate ShowsFirst(all: set<Entry>, s: SequenceNumber, b: Bound, r: Option<Entry>) {
    match r
    case None => forall x | x in all && Shown(all, s, x) :: !b.Admits(x.key.user)
    case Some(e) =>
      && Shown(all, s, e) && b.Admits(e.key.user)
      && forall x | x in all && Shown(all, s, x) && b.Admits(x.key.user) :: e.key.user <= x.key.user
  }

  // `r` is the last user key of the visible map within the bound.
  ghost predicate ShowsLast(all: set<Entry>, s: SequenceNumber, b: Bound, r: Option<Entry>) {
    match r
    case None => forall x | x in all && Shown(all, s, x) :: !b.Admits(x.key.user)
    case Some(e) =>
      && Shown(all, s, e) && b.Admits(e.key.user)
      && forall x | x in all && Shown(all, s, x) && b.Admits(x.key.user) :: x.key.user <= e.key.user
  }

  lemma UnshownReadsNothing(all: set<Entry>, s: SequenceNumber, u: UserKey)
    requires DistinctStamps(all)
    requires forall x | x in all && Shown(all, s, x) :: x.key.user != u
    ensures Lookup(all, u, s) == None
  {
    if Visible(all, u, s) != {} {
      NewestExists(all, u, s);
      var n :| IsNewest(all, u, s, n);
      LookupIs(all, u, s, n);
      assert n.key.user == u && (n.key.kind.Put? ==> Shown(all, s, n));
    }
  }

  // In terms of reads: no user key within the bound and before `r` reads anything, and `r`
  // is the reading of its own key.
  lemma ShowsFirstIsLeastReading(all: set<Entry>, s: SequenceNumber, b: Bound, r: Option<Entry>)
    requires DistinctStamps(all)
    requires ShowsFirst(all, s, b, r)
    ensures r.Some? ==> b.Admits(r.value.key.user) && Lookup(all, r.value.key.user, s) == Some(r.value.value)
    ensures forall u | b.Admits(u) && (r.Some? ==> u < r.value.key.user) :: Lookup(all, u, s) == None
  {
    if r.Some? {
      LookupIs(all, r.value.key.user, s, r.value);
    }
    forall u | b.Admits(u) && (r.Some? ==> u < r.value.key.user)
      ensures Lookup(all, u, s) == None
    {
      UnshownReadsNothing(all, s, u);
    }
  }

  lemma ShowsLastIsGreatestReading(all: set<Entry>, s: SequenceNumber, b: Bound, r: Option<Entry>)
    requires DistinctStamps(all)
    requires ShowsLast(all, s, b, r)
    ensures r.Some? ==> b.Admits(r.value.key.user) && Lookup(all, r.value.key.user, s) == Some(r.value.value)
    ensures forall u | b.Admits(u) && (r.Some? ==> r.value.key.user < u) :: Lookup(all, u, s) == None
  {
    if r.Some? {
      LookupIs(all, r.value.key.user, s, r.value);
    }
    forall u | b.Admits(u) && (r.Some? ==> r.value.key.user < u)
      ensures Lookup(all, u, s) == None
    {
      UnshownReadsNothing(all, s, u);
    }
  }

  // Whether `x` sorts after the position `p`, where None is the position before everything.
  ghost predicate Passed(p: Option<Entry>, x: Entry) {
    p.Some? ==> Less(p.value.key, x.key)
  }

  class DbIterator {
    const iter: MergingIterator
    const sequence: SequenceNumber
    var savedKey: Option<UserKey>  // the current key when moving back
    var savedValue: Value          // the current value when moving back
    var direction: Direction
    var valid: bool
    ghost var current: Entry       // the entry being shown, while valid

    // Moving forward, the internal iterator is at the entry shown. Moving back, it is before
    // all entries of the key shown, and nothing visible lies between.
    ghost predicate WellFormed()
      reads this, iter, iter.children
    {
      && iter.WellFormed()
      && (valid ==> Shown(iter.all, sequence, current))
      && (valid && direction.Forward? ==> iter.Here() == Some(current))
      && (valid && direction.Reverse? ==>
            && savedKey == Some(current.key.user)
            && savedValue == current.value
            && IsBehind(iter.Here(), current.key.user))
    }

    // The position `p` is before the entries of `user` with no visible entry in between.
    ghost predicate IsBehind(p: Option<Entry>, user: UserKey) {
      && (p.Some? ==> p.value in iter.all && p.value.key.user < user)
      && forall x | x in iter.all && Passed(p, x) && x.key.user < user :: sequence < x.key.sequence
    }

    ghost function Here(): Option<Entry>
      reads this
    {
      if valid then Some(current) else None
    }

    constructor (iter: MergingIterator, sequence: SequenceNumber)
      requires iter.WellFormed()
      ensures WellFormed() && !valid && this.iter == iter && this.sequence == sequence
    {
      this.iter, this.sequence := iter, sequence;
      direction, valid := Forward, false;
      savedKey, savedValue := None, "";
    }

    method Key() returns (u: UserKey)
      requires WellFormed() && valid
      ensures Here() == Some(current) && u == current.key.user
    {
      u := if direction.Forward? then iter.Entry().key.user else savedKey.value;
    }

    method Value() returns (v: Value)
      requires WellFormed() && valid
      ensures v == current.value
    {
      v := if direction.Forward? then iter.Entry().value else savedValue;
    }

    // What is left to scan from a forward position.
    ghost function Ahead(p: Option<Entry>): set<Entry> {
      if p.None? then {} else set x | x in iter.all && !Less(x.key, p.value.key)
    }

    // What is left to scan from a backward position.
    ghost function Behind(p: Option<Entry>): set<Entry> {
      if p.None? then {} else set x | x in iter.all && !Less(p.value.key, x.key)
    }

    // ---- Scanning forward

    ghost predicate Hides(skip: Option<UserKey>, u: UserKey) {
      skip.Some? && u <= skip.value
    }

    // From `p` on: nothing within the bound was passed, what is shown ahead is within the
    // bound unless it is skipped, and what a passed entry hides is skipped.
    ghost predicate Scanning(p: Entry, skip: Option<UserKey>, b: Bound) {
      && (forall x | x in iter.all && Shown(iter.all, sequence, x) ::
            b.Admits(x.key.user) <==> !Less(x.key, p.key) && !Hides(skip, x.key.user))
      && (forall x, y | x in iter.all && y in iter.all && Less(y.key, p.key) && !Less(x.key, p.key)
                        && y.key.user == x.key.user && y.key.sequence <= sequence ::
            Hides(skip, x.key.user))
      && (forall x | x in iter.all && !Less(x.key, p.key) && x.key.sequence <= sequence && Hides(skip, x.key.user) ::
            x.key.user == skip.value)
    }

    lemma ScanFinds(p: Entry, skip: Option<UserKey>, b: Bound)
      requires DistinctStamps(iter.all) && p in iter.all
      requires Scanning(p, skip, b)
      requires p.key.sequence <= sequence && p.key.kind.Put? && !Hides(skip, p.key.user)
      ensures ShowsFirst(iter.all, sequence, b, Some(p))
    {
      assert p in Visible(iter.all, p.key.user, sequence);
      assert Shown(iter.all, sequence, p);
      assert !Less(p.key, p.key);
    }

    lemma ScanDeletion(p: Entry, skip: Option<UserKey>, b: Bound)
      requires p in iter.all
      requires Scanning(p, skip, b)
      requires p.key.sequence <= sequence && p.key.kind.Deletion?
      ensures Scanning(p, Some(p.key.user), b)
    {
      assert p in Visible(iter.all, p.key.user, sequence);
    }

    lemma ScanAdvances(p: Entry, skip: Option<UserKey>, b: Bound, next: Option<Entry>)
      requires DistinctStamps(iter.all) && p in iter.all
      requires Scanning(p, skip, b)
      requires sequence < p.key.sequence || Hides(skip, p.key.user)
      requires LandsAfter(iter.all, p.key, next)
      ensures next.None? ==> ShowsFirst(iter.all, sequence, b, None)
      ensures next.Some? ==> Scanning(next.value, skip, b)
      ensures Ahead(next) < Ahead(Some(p))
    {
      forall x | x in iter.all
        ensures if next.None? then !Less(p.key, x.key) else Less(x.key, next.value.key) <==> !Less(p.key, x.key)
        ensures !Less(p.key, x.key) <==> Less(x.key, p.key) || x.key == p.key
      {
        LessIsStrictTotalOrder(x.key, p.key, p.key);
        if next.Some? {
          LessIsStrictTotalOrder(x.key, p.key, next.value.key);
        }
      }
      assert p in Ahead(Some(p)) && p !in Ahead(next);
    }

    lemma ScanFromSeek(target: UserKey, p: Option<Entry>)
      requires LandsAtOrAfter(iter.all, LookupKey(target, sequence), p)
      ensures p.None? ==> ShowsFirst(iter.all, sequence, AtLeast(target), None)
      ensures p.Some? ==> Scanning(p.value, None, AtLeast(target))
    {
      forall x | x in iter.all && x.key.sequence <= sequence
        ensures target <= x.key.user <==> !Less(x.key, LookupKey(target, sequence))
      {
      }
      if p.Some? {
        forall x | x in iter.all
          ensures Less(x.key, p.value.key) <==> Less(x.key, LookupKey(target, sequence))
        {
          LessIsStrictTotalOrder(x.key, LookupKey(target, sequence), p.value.key);
          LessIsStrictTotalOrder(p.value.key, LookupKey(target, sequence), p.value.key);
        }
      }
    }

    lemma ScanFromShown(p: Entry)
      requires Shown(iter.all, sequence, p)
      ensures Scanning(p, Some(p.key.user), Above(p.key.user))
    {
    }

    lemma ScanFromFirst(p: Option<Entry>)
      requires LandsFirst(iter.all, p)
      ensures p.None? ==> ShowsFirst(iter.all, sequence, Unbounded, None)
      ensures p.Some? ==> Scanning(p.value, None, Unbounded)
    {
    }

    // Turning forward from a position behind the entries of the shown key.
    lemma ScanFromBehind(q: Option<Entry>, user: UserKey, p: Option<Entry>)
      requires IsBehind(q, user)
      requires if q.None? then LandsFirst(iter.all, p) else LandsAfter(iter.all, q.value.key, p)
      ensures p.None? ==> ShowsFirst(iter.all, sequence, Above(user), None)
      ensures p.Some? ==> Scanning(p.value, Some(user), Above(user))
    {
      if p.Some? {
        forall x | x in iter.all
          ensures Less(x.key, p.value.key) <==> !Passed(q, x)
          ensures !Passed(q, x) ==> x.key.user <= q.value.key.user
        {
          if q.Some? {
            LessIsStrictTotalOrder(q.value.key, x.key, p.value.key);
          }
        }
      }
    }

    method FindNextUserEntry(skipping: bool, ghost b: Bound)
      requires iter.WellFormed() && iter.IsValid() && direction.Forward?
      requires DistinctStamps(iter.all)
      requires skipping ==> savedKey.Some?
      requires Scanning(iter.Entry(), if skipping then savedKey else None, b)
      modifies this, iter`current, iter`direction, iter.children
      ensures WellFormed() && ShowsFirst(iter.all, sequence, b, Here())
    {
      hide Scanning, ShowsFirst, Shown, LandsAfter, IsBehind, iter.WellFormed, iter.Base;
      var skip := if skipping then savedKey else None;
      while true
        invariant iter.WellFormed() && iter.IsValid() && direction.Forward?
        invariant Scanning(iter.Entry(), skip, b)
        decreases Ahead(iter.Here())
      {
        var p := iter.Entry();
        if p.key.sequence <= sequence {
          match p.key.kind
          case Deletion =>
            ScanDeletion(p, skip, b);
            skip := Some(p.key.user);
          case Put =>
            if skip.Some? && p.key.user <= skip.value {
              // hidden
            } else {
              ScanFinds(p, skip, b);
              valid, savedKey, current := true, None, p;
              return;
            }
        }
        iter.Next();
        ScanAdvances(p, skip, b, iter.Here());
        if !iter.IsValid() {
          break;
        }
      }
      savedKey, valid := None, false;
    }

    method Seek(target: UserKey)
      requires WellFormed() && DistinctStamps(iter.all)
      modifies this, iter`current, iter`direction, iter.children
      ensures WellFormed() && ShowsFirst(iter.all, sequence, AtLeast(target), Here())
    {
      hide Scanning, ShowsFirst, Shown, LandsAfter, LandsFirst, LandsAtOrAfter, IsBehind, Less, iter.WellFormed, iter.Base;
      direction, savedValue, savedKey := Forward, "", None;
      iter.Seek(LookupKey(target, sequence));
      ScanFromSeek(target, iter.Here());
      if iter.IsValid() {
        FindNextUserEntry(false, AtLeast(target));
      } else {
        valid := false;
      }
    }

    method SeekToFirst()
      requires WellFormed() && DistinctStamps(iter.all)
      modifies this, iter`current, iter`direction, iter.children
      ensures WellFormed() && ShowsFirst(iter.all, sequence, Unbounded, Here())
    {
      hide Scanning, ShowsFirst, Shown, LandsAfter, LandsFirst, LandsAtOrAfter, IsBehind, Less, iter.WellFormed, iter.Base;
      direction, savedValue := Forward, "";
      iter.SeekToFirst();
      ScanFromFirst(iter.Here());
      if iter.IsValid() {
        FindNextUserEntry(false, Unbounded);
      } else {
        valid := false;
      }
    }

    method Next()
      requires WellFormed() && DistinctStamps(iter.all) && valid
      modifies this, iter`current, iter`direction, iter.children
      ensures WellFormed() && ShowsFirst(iter.all, sequence, Above(old(current).key.user), Here())
    {
      hide Scanning, ShowsFirst, Shown, LandsAfter, LandsFirst, LandsAtOrAfter, IsBehind, Less, iter.WellFormed, iter.Base;
      if direction.Reverse? {
        ghost var behind := iter.Here();
        direction := Forward;
        if !iter.IsValid() {
          iter.SeekToFirst();
        } else {
          iter.Next();
        }
        ScanFromBehind(behind, savedKey.value, iter.Here());
        if !iter.IsValid() {
          valid, savedKey := false, None;
          return;
        }
      } else {
        savedKey := Some(iter.Entry().key.user);
        ScanFromShown(iter.Entry());
      }
      FindNextUserEntry(true, Above(savedKey.value));
    }

    // ---- Gathering backward

    // Back to `p`: what is left is within the bound, nothing shown within the bound was
    // passed except possibly `found`, the latest visible entry passed.
    ghost predicate Gathering(p: Option<Entry>, found: Option<Entry>, b: Bound) {
      && (forall x | x in iter.all && !Passed(p, x) :: b.Admits(x.key.user))
      && match found
         case None =>
           forall x | x in iter.all && Shown(iter.all, sequence, x) && b.Admits(x.key.user) :: !Passed(p, x)
         case Some(f) =>
           && f in iter.all && Passed(p, f) && f.key.sequence <= sequence && f.key.kind.Put? && b.Admits(f.key.user)
           && (forall y | y in iter.all && Passed(p, y) && b.Admits(y.key.user) && y.key.sequence <= sequence ::
                 !Less(y.key, f.key))
           && forall x | x in iter.all && Shown(iter.all, sequence, x) && b.Admits(x.key.user) && Passed(p, x) ::
                x.key.user <= f.key.user
    }

    // `f` is shown once every entry left belongs to an earlier user key, or none is left.
    lemma GatherEnds(p: Option<Entry>, f: Entry, b: Bound)
      requires DistinctStamps(iter.all)
      requires Gathering(p, Some(f), b) && (b.Unbounded? || b.Below?)
      requires p.Some? ==> p.value in iter.all && p.value.key.sequence <= sequence && p.value.key.user < f.key.user
      ensures ShowsLast(iter.all, sequence, b, Some(f))
      ensures IsBehind(p, f.key.user)
    {
      assert IsNewest(iter.all, f.key.user, sequence, f) by {
        forall y | y in Visible(iter.all, f.key.user, sequence)
          ensures y.key.sequence <= f.key.sequence
        {
          assert Passed(p, y);
        }
      }
      forall x | x in iter.all && Passed(p, x) && x.key.user < f.key.user
        ensures sequence < x.key.sequence
      {
        assert b.Admits(x.key.user);
      }
    }

    ghost function Found(p: Entry, found: Option<Entry>): Option<Entry> {
      if sequence < p.key.sequence then found else if p.key.kind.Deletion? then None else Some(p)
    }

    lemma GatherStep(p: Entry, found: Option<Entry>, b: Bound, next: Option<Entry>)
      requires DistinctStamps(iter.all) && p in iter.all
      requires Gathering(Some(p), found, b)
      requires p.key.sequence <= sequence && found.Some? ==> found.value.key.user <= p.key.user
      requires LandsBefore(iter.all, p.key, next)
      ensures Gathering(next, Found(p, found), b)
      ensures Behind(next) < Behind(Some(p))
    {
      PassedBack(p, next);
    }

    lemma PassedBack(p: Entry, next: Option<Entry>)
      requires DistinctStamps(iter.all) && p in iter.all
      requires LandsBefore(iter.all, p.key, next)
      ensures forall x | x in iter.all :: Passed(next, x) <==> x == p || Passed(Some(p), x)
      ensures Behind(next) < Behind(Some(p))
    {
      forall x | x in iter.all
        ensures Passed(next, x) <==> x == p || Passed(Some(p), x)
        ensures !(x == p && Passed(Some(p), x))
      {
        LessIsStrictTotalOrder(x.key, p.key, p.key);
        if next.Some? {
          LessIsStrictTotalOrder(next.value.key, p.key, x.key);
          LessIsStrictTotalOrder(x.key, next.value.key, p.key);
        }
      }
      assert p in Behind(Some(p)) && p !in Behind(next);
    }

    // Moving forward or back, `p` is the last entry whose user key is below `user`.
    lemma GatherFrom(p: Option<Entry>, user: UserKey)
      requires p.Some? ==> p.value in iter.all && p.value.key.user < user
      requires forall x | x in iter.all && Passed(p, x) && x.key.user < user :: sequence < x.key.sequence
      ensures Gathering(p, None, Below(user))
    {
    }

    lemma GatherNothing(b: Bound)
      requires Gathering(None, None, b)
      ensures ShowsLast(iter.all, sequence, b, None)
    {
    }

    lemma GatherFromLast(p: Option<Entry>)
      requires LandsLast(iter.all, p)
      ensures Gathering(p, None, Unbounded)
    {
    }

    method FindPrevUserEntry(ghost b: Bound)
      requires iter.WellFormed() && direction.Reverse?
      requires DistinctStamps(iter.all) && (b.Unbounded? || b.Below?)
      requires Gathering(iter.Here(), None, b)
      modifies this, iter`current, iter`direction, iter.children
      ensures WellFormed() && ShowsLast(iter.all, sequence, b, Here())
    {
      hide Gathering, ShowsLast, LandsBefore, Less, Shown, iter.WellFormed, iter.Base;
      var valueType := Deletion;
      ghost var found := None;
      while iter.IsValid()
        invariant iter.WellFormed() && direction.Reverse?
        invariant Gathering(iter.Here(), found, b)
        invariant valueType.Deletion? <==> found.None?
        invariant found.Some? ==> savedKey == Some(found.value.key.user) && savedValue == found.value.value
        decreases Behind(iter.Here())
      {
        var p := iter.Entry();
        if p.key.sequence <= sequence {
          if valueType != Deletion && p.key.user < savedKey.value {
            break;
          }
          valueType := p.key.kind;
          if valueType == Deletion {
            savedKey, savedValue := None, "";
          } else {
            savedKey, savedValue := Some(p.key.user), p.value;
          }
        }
        iter.Prev();
        GatherStep(p, found, b, iter.Here());
        found := Found(p, found);
      }
      if valueType == Deletion {
        GatherNothing(b);
        valid, savedKey, savedValue, direction := false, None, "", Forward;
      } else {
        GatherEnds(iter.Here(), found.value, b);
        valid, current := true, found.value;
      }
    }

    method SeekToLast()
      requires WellFormed() && DistinctStamps(iter.all)
      modifies this, iter`current, iter`direction, iter.children
      ensures WellFormed() && ShowsLast(iter.all, sequence, Unbounded, Here())
    {
      hide Gathering, ShowsLast, LandsLast, Less, Shown, IsBehind, iter.WellFormed, iter.Base;
      direction, savedValue := Reverse, "";
      iter.SeekToLast();
      GatherFromLast(iter.Here());
      FindPrevUserEntry(Unbounded);
    }

    method Prev()
      requires WellFormed() && DistinctStamps(iter.all) && valid
      modifies this, iter`current, iter`direction, iter.children
      ensures WellFormed() && ShowsLast(iter.all, sequence, Below(old(current).key.user), Here())
    {
      hide Gathering, ShowsLast, Shown, iter.WellFormed, iter.Base;
      ghost var user := current.key.user;
      if direction.Forward? {
        savedKey := Some(iter.Entry().key.user);
        while true
          invariant iter.WellFormed() && iter.IsValid() && savedKey == Some(user) && user <= iter.Entry().key.user
          invariant forall x | x in iter.all && Passed(iter.Here(), x) :: user <= x.key.user
          decreases Behind(iter.Here())
        {
          ghost var p := iter.Entry();
          iter.Prev();
          PassedBack(p, iter.Here());
          if !iter.IsValid() {
            GatherFrom(None, user);
            GatherNothing(Below(user));
            valid, savedKey, savedValue := false, None, "";
            return;
          }
          if iter.Entry().key.user < savedKey.value {
            break;
          }
        }
        direction := Reverse;
      }
      GatherFrom(iter.Here(), user);
      FindPrevUserEntry(Below(user));
    }
  }
}
