// Keys as bytes: the bytewise order, the order of internal keys, and the short keys that fit
// between two others.

module KeyOrders {
  import opened Bytes
  import opened Coding

  type Order = (seq<Byte>, seq<Byte>) -> bool

  // A strict order in which keys that are not ordered are alike.
  ghost predicate IsOrder(less: Order) {
    && (forall a :: !less(a, a))
    && (forall a, b, c :: less(a, b) && less(b, c) ==> less(a, c))
    && (forall a, b, c :: less(a, c) ==> less(a, b) || less(b, c))
  }

  // ---- Bytewise

  predicate BytesLess(a: seq<Byte>, b: seq<Byte>) {
    b != [] && (a == [] || a[0] < b[0] || (a[0] == b[0] && BytesLess(a[1..], b[1..])))
  }

  lemma {:induction false} BytesLessThree(a: seq<Byte>, b: seq<Byte>, c: seq<Byte>)
    ensures !BytesLess(a, a)
    ensures BytesLess(a, b) && BytesLess(b, c) ==> BytesLess(a, c)
    ensures BytesLess(a, c) ==> BytesLess(a, b) || BytesLess(b, c)
    ensures a == b || BytesLess(a, b) || BytesLess(b, a)
  {
    if a != [] {
      BytesLessThree(a[1..], if b == [] then [] else b[1..], if c == [] then [] else c[1..]);
      assert b != [] && a[0] == b[0] && a[1..] == b[1..] ==> a == [a[0]] + a[1..] == [b[0]] + b[1..] == b;
    }
  }

  lemma BytesLessIsOrder()
    ensures IsOrder(BytesLess)
  {
    forall a, b, c
      ensures !BytesLess(a, a)
      ensures BytesLess(a, b) && BytesLess(b, c) ==> BytesLess(a, c)
      ensures BytesLess(a, c) ==> BytesLess(a, b) || BytesLess(b, c)
    {
      BytesLessThree(a, b, c);
    }
  }

  // The first different byte decides.
  lemma {:induction false} FirstDifference(a: seq<Byte>, b: seq<Byte>, i: nat)
    requires i < |a| && i < |b| && a[..i] == b[..i] && a[i] != b[i]
    ensures BytesLess(a, b) <==> a[i] < b[i]
    ensures BytesLess(b, a) <==> b[i] < a[i]
  {
    if i > 0 {
      assert a[0] == a[..i][0] == b[..i][0] == b[0];
      assert a[1..][..i-1] == a[..i][1..] == b[1..][..i-1];
      FirstDifference(a[1..], b[1..], i - 1);
    }
  }

  predicate SameUntil(a: seq<Byte>, b: seq<Byte>, n: nat) {
    n <= |a| && n <= |b| && forall i | 0 <= i < n :: a[i] == b[i]
  }

  // The keys differ first at `d`, and a byte fits between the two there.
  predicate LeavesRoom(start: seq<Byte>, limit: seq<Byte>, d: nat) {
    SameUntil(start, limit, d) && d < |start| && d < |limit| && start[d] < 0xff && start[d] + 1 < limit[d]
  }

  function Bumped(s: seq<Byte>, d: nat): (r: seq<Byte>)
    requires d < |s| && s[d] < 0xff
    ensures |r| == d + 1
  {
    s[..d] + [s[d] + 1]
  }

  lemma BumpedIsAfter(s: seq<Byte>, d: nat)
    requires d < |s| && s[d] < 0xff
    ensures BytesLess(s, Bumped(s, d))
  {
    hide BytesLess;
    FirstDifference(s, Bumped(s, d), d);
    OneUp(s[d]);
  }

  lemma BumpedIsBetween(start: seq<Byte>, limit: seq<Byte>, d: nat)
    requires LeavesRoom(start, limit, d)
    ensures BytesLess(start, Bumped(start, d)) && BytesLess(Bumped(start, d), limit) && BytesLess(start, limit)
  {
    hide BytesLess;
    OneUp(start[d]);
    BumpedIsAfter(start, d);
    assert start[..d] == limit[..d];
    FirstDifference(Bumped(start, d), limit, d);
    FirstDifference(start, limit, d);
  }

  lemma OneUp(b: Byte)
    requires b < 0xff
    ensures b < b + 1
  {
  }

  lemma NoOtherRoom(start: seq<Byte>, limit: seq<Byte>, n: nat)
    requires SameUntil(start, limit, n) && (n == |start| || n == |limit| || start[n] != limit[n])
    requires !LeavesRoom(start, limit, n)
    ensures forall d: nat :: !LeavesRoom(start, limit, d)
  {
    forall d: nat
      ensures !LeavesRoom(start, limit, d)
    {
      if LeavesRoom(start, limit, d) {
        OneUp(start[d]);
      }
    }
  }

  lemma RoomIs(start: seq<Byte>, limit: seq<Byte>)
    ensures forall d: nat | d < |start| && d < |limit| && start[..d] == limit[..d] && start[d] < 0xff && start[d] + 1 < limit[d] ::
              LeavesRoom(start, limit, d)
  {
    forall d: nat | d < |start| && d < |limit| && start[..d] == limit[..d]
      ensures SameUntil(start, limit, d)
    {
      forall i | 0 <= i < d
        ensures start[i] == limit[i]
      {
        assert start[..d][i] == limit[..d][i];
      }
    }
  }

  // The keys differ at one place first.
  lemma OneRoom(start: seq<Byte>, limit: seq<Byte>, n: nat)
    requires LeavesRoom(start, limit, n)
    ensures forall d: nat | d < |start| && d < |limit| && start[..d] == limit[..d] && start[d] < 0xff && start[d] + 1 < limit[d] ::
              d == n && Bumped(start, n) == start[..d] + [start[d] + 1]
  {
    RoomIs(start, limit);
    OneUp(start[n]);
    forall d: nat | d < |start| && d < |limit| && start[..d] == limit[..d] && start[d] < 0xff && start[d] + 1 < limit[d]
      ensures d == n
    {
      OneUp(start[d]);
      assert LeavesRoom(start, limit, d);
    }
  }

  // A short key from `start` on and before `limit`, if there is one.
  method FindShortestSeparator(start: seq<Byte>, limit: seq<Byte>) returns (r: seq<Byte>)
    ensures |r| <= |start|
    ensures r != start ==> BytesLess(start, r) && BytesLess(r, limit) && BytesLess(start, limit)
    ensures if exists d: nat :: LeavesRoom(start, limit, d) then exists d: nat :: LeavesRoom(start, limit, d) && r == Bumped(start, d) else r == start
    ensures forall d: nat | d < |start| && d < |limit| && start[..d] == limit[..d] && start[d] < 0xff && start[d] + 1 < limit[d] ::
              r == start[..d] + [start[d] + 1]
  {
    hide BytesLess, Bumped;
    var minLength := if |start| < |limit| then |start| else |limit|;
    var diffIndex := 0;
    while diffIndex < minLength && start[diffIndex] == limit[diffIndex]
      invariant diffIndex <= minLength && SameUntil(start, limit, diffIndex)
    {
      diffIndex := diffIndex + 1;
    }
    if diffIndex < minLength && start[diffIndex] < 0xff && start[diffIndex] + 1 < limit[diffIndex] {
      BumpedIsBetween(start, limit, diffIndex);
      OneRoom(start, limit, diffIndex);
      return Bumped(start, diffIndex);
    }
    NoOtherRoom(start, limit, diffIndex);
    RoomIs(start, limit);
    return start;
  }

  predicate AllOnes(s: seq<Byte>, n: nat)
    requires n <= |s|
  {
    forall i | 0 <= i < n :: s[i] == 0xff
  }

  // A short key after `key`, unless all its bytes are the largest.
  method FindShortSuccessor(key: seq<Byte>) returns (r: seq<Byte>)
    ensures |r| <= |key|
    ensures r != key ==> BytesLess(key, r)
    ensures if AllOnes(key, |key|) then r == key else exists i: nat :: i < |key| && AllOnes(key, i) && key[i] < 0xff && r == Bumped(key, i)
    ensures (forall i | 0 <= i < |key| :: key[i] == 0xff) ==> r == key
    ensures forall i: nat | i < |key| && key[i] != 0xff && (forall j | 0 <= j < i :: key[j] == 0xff) :: r == key[..i] + [key[i] + 1]
  {
    hide BytesLess;
    for i := 0 to |key|
      invariant AllOnes(key, i)
    {
      if key[i] != 0xff {
        BelowOnes(key[i]);
        BumpedIsAfter(key, i);
        return Bumped(key, i);
      }
    }
    return key;
  }

  lemma BelowOnes(b: Byte)
    requires b != 0xff
    ensures b < 0xff
  {
  }

  // ---- Internal keys: a user key, and eight bytes for the sequence number and the kind

  function UserPart(k: seq<Byte>): seq<Byte> {
    if |k| < 8 then k else k[..|k|-8]
  }

  function PackedPart(k: seq<Byte>): nat {
    if |k| < 8 then 0 else Fixed64Value(k[|k|-8..])
  }

  // User keys ascending; for one user key, packed numbers descending.
  predicate InternalLess(a: seq<Byte>, b: seq<Byte>) {
    if UserPart(a) == UserPart(b) then PackedPart(a) > PackedPart(b) else BytesLess(UserPart(a), UserPart(b))
  }

  lemma InternalLessThree(a: seq<Byte>, b: seq<Byte>, c: seq<Byte>)
    ensures !InternalLess(a, a)
    ensures InternalLess(a, b) && InternalLess(b, c) ==> InternalLess(a, c)
    ensures InternalLess(a, c) ==> InternalLess(a, b) || InternalLess(b, c)
  {
    hide BytesLess, UserPart, PackedPart;
    var x, y, z := UserPart(a), UserPart(b), UserPart(c);
    BytesLessThree(x, y, z);
    BytesLessThree(y, x, z);
    BytesLessThree(y, z, x);
  }

  lemma InternalLessIsOrder()
    ensures IsOrder(InternalLess)
  {
    hide InternalLess;
    forall a, b, c
      ensures !InternalLess(a, a)
      ensures InternalLess(a, b) && InternalLess(b, c) ==> InternalLess(a, c)
      ensures InternalLess(a, c) ==> InternalLess(a, b) || InternalLess(b, c)
    {
      InternalLessThree(a, b, c);
    }
  }

  // The largest sequence number, and the kind with which a search is made.
  function SeekTag(): (r: seq<Byte>)
    ensures |r| == 8 && Fixed64Value(r) == 0xff_ffff_ffff_ffff * 256 + 1
  {
    assert NumberOf(0xff) == 255 && NumberOf(0x01) == 1;
    [0x01, 0xff, 0xff, 0xff, 0xff, 0xff, 0xff, 0xff]
  }

  method FindShortestInternalSeparator(start: seq<Byte>, limit: seq<Byte>) returns (r: seq<Byte>)
    requires |start| >= 8 && |limit| >= 8
    ensures 8 <= |r| <= |start|
    ensures r != start ==> BytesLess(UserPart(start), UserPart(r)) && BytesLess(UserPart(r), UserPart(limit))
    ensures r != start ==> |r| < |start| && r[|r|-8..] == SeekTag()
    ensures var u, l := UserPart(start), UserPart(limit);
            && (forall d: nat | d + 1 < |u| && d < |l| && u[..d] == l[..d] && u[d] < 0xff && u[d] + 1 < l[d] ::
                  r == u[..d] + [u[d] + 1] + SeekTag())
            && (r != start ==> exists d: nat :: LeavesRoom(u, l, d) && d + 1 < |u|)
  {
    hide BytesLess;
    var tmp := FindShortestSeparator(UserPart(start), UserPart(limit));
    r := start;
    if |tmp| < |UserPart(start)| && BytesLess(UserPart(start), tmp) {
      r := tmp + SeekTag();
      assert UserPart(r) == tmp;
    }
  }

  // The first byte below the largest is the one raised.
  lemma OnlyBelowOnes(u: seq<Byte>, tmp: seq<Byte>, i: nat)
    requires if AllOnes(u, |u|) then tmp == u else exists j: nat :: j < |u| && AllOnes(u, j) && u[j] < 0xff && tmp == Bumped(u, j)
    requires i < |u| && AllOnes(u, i) && u[i] < 0xff
    ensures tmp == Bumped(u, i)
  {
    hide Bumped;
    assert u[i] != 0xff;
    var j: nat :| j < |u| && AllOnes(u, j) && u[j] < 0xff && tmp == Bumped(u, j);
    assert u[j] != 0xff;
  }

  method FindShortInternalSuccessor(key: seq<Byte>) returns (r: seq<Byte>)
    requires |key| >= 8
    ensures 8 <= |r| <= |key|
    ensures r != key ==> BytesLess(UserPart(key), UserPart(r)) && |r| < |key| && r[|r|-8..] == SeekTag()
    ensures var u := UserPart(key);
            && (forall i: nat | i + 1 < |u| && u[i] != 0xff && (forall j | 0 <= j < i :: u[j] == 0xff) ::
                  r == u[..i] + [u[i] + 1] + SeekTag())
            && (r != key ==> exists i: nat :: i + 1 < |u| && u[i] != 0xff && AllOnes(u, i))
  {
    hide BytesLess, AllOnes, Bumped, SeekTag;
    var tmp := FindShortSuccessor(UserPart(key));
    forall i: nat | i + 1 < |UserPart(key)| && AllOnes(UserPart(key), i) && UserPart(key)[i] < 0xff
      ensures |tmp| == i + 1
    {
      OnlyBelowOnes(UserPart(key), tmp, i);
    }
    r := key;
    if |tmp| < |UserPart(key)| && BytesLess(UserPart(key), tmp) {
      r := tmp + SeekTag();
      assert UserPart(r) == tmp;
    }
  }

  // A separator is at or after `start` and before `limit`, and a key at or before it whose user
  // key is that of `limit` is at or before `start`.
  lemma SeparatorSeparates(start: seq<Byte>, r: seq<Byte>, limit: seq<Byte>, k: seq<Byte>)
    requires InternalLess(start, limit)
    requires r == start || (BytesLess(UserPart(start), UserPart(r)) && BytesLess(UserPart(r), UserPart(limit)))
    ensures !InternalLess(r, start) && InternalLess(r, limit)
    ensures !InternalLess(r, k) && UserPart(k) == UserPart(limit) ==> !InternalLess(start, k)
  {
    hide BytesLess, UserPart, PackedPart;
    BytesLessThree(UserPart(start), UserPart(r), UserPart(start));
    BytesLessThree(UserPart(r), UserPart(limit), UserPart(r));
    BytesLessThree(UserPart(start), UserPart(r), UserPart(limit));
  }
}
