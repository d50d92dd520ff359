// The skip list of a memtable: one writer publishes a node link by link, from the lowest level
// up, while readers search.

module SkipLists {
  // A key is represented by its position under the comparator; keys are distinct.
  type Key = real

  const MAX_HEIGHT: nat := 12

  datatype Node = Head | At(key: Key) | Null

  // Node `x` sorts before key `k`.
  predicate Precedes(x: Node, k: Key) {
    x.Head? || (x.At? && x.key < k)
  }

  // ---- One level

  // `y` is the node of the least key of `keys` after `x`.
  ghost predicate IsNext(keys: set<Key>, x: Node, y: Node) {
    match y
    case Head => false
    case Null => forall k | k in keys :: !Precedes(x, k)
    case At(key) => key in keys && Precedes(x, key) && forall k | k in keys && Precedes(x, k) :: key <= k
  }

  // `x` is the node of the greatest key of `keys` before `key`.
  ghost predicate IsPrevious(keys: set<Key>, x: Node, key: Key) {
    && IsMember(keys, x) && Precedes(x, key)
    && forall k | k in keys && k < key :: !Precedes(x, k)
  }

  predicate IsMember(keys: set<Key>, x: Node) {
    x.Head? || (x.At? && x.key in keys)
  }

  // Every member of the level links to the next one. A node that is not a member may have a
  // link of its own already.
  ghost predicate Linked(links: map<Node, Node>, keys: set<Key>) {
    forall x | IsMember(keys, x) :: x in links && IsNext(keys, x, links[x])
  }

  // Walking the links from the head passes `ks` and ends.
  ghost predicate IsWalk(links: map<Node, Node>, x: Node, ks: seq<Key>)
    decreases |ks|
  {
    && x in links
    && if ks == [] then links[x].Null? else links[x] == At(ks[0]) && IsWalk(links, At(ks[0]), ks[1..])
  }

  ghost predicate Ascending(ks: seq<Key>) {
    forall i, j | 0 <= i < j < |ks| :: ks[i] < ks[j]
  }

  lemma {:induction false} WalkFrom(links: map<Node, Node>, keys: set<Key>, x: Node, left: set<Key>) returns (ks: seq<Key>)
    requires Linked(links, keys) && IsMember(keys, x)
    requires forall k :: k in left <==> k in keys && Precedes(x, k)
    ensures IsWalk(links, x, ks) && Ascending(ks) && forall k :: k in ks <==> k in left
    decreases |left|
  {
    if links[x].Null? {
      ks := [];
    } else {
      var k := links[x].key;
      assert left - {k} < left;
      var rest := WalkFrom(links, keys, At(k), left - {k});
      ks := [k] + rest;
      assert ks[1..] == rest;
    }
  }

  // A level's links are an ascending list of exactly its keys.
  lemma LinkedIsSortedList(links: map<Node, Node>, keys: set<Key>)
    requires Linked(links, keys)
    ensures exists ks :: IsWalk(links, Head, ks) && Ascending(ks) && forall k :: k in ks <==> k in keys
  {
    var ks := WalkFrom(links, keys, Head, keys);
  }

  // The two stores that put a node into a level: its own link first, then the link to it.
  lemma StoreOwnLink(links: map<Node, Node>, keys: set<Key>, key: Key, y: Node)
    requires Linked(links, keys) && key !in keys
    ensures Linked(links[At(key) := y], keys)
  {
  }

  lemma StoreLinkTo(links: map<Node, Node>, keys: set<Key>, prev: Node, key: Key)
    requires Linked(links, keys) && key !in keys && IsPrevious(keys, prev, key)
    requires At(key) in links && links[At(key)] == links[prev]
    ensures Linked(links[prev := At(key)], keys + {key})
  {
    var links', keys' := links[prev := At(key)], keys + {key};
    forall x | IsMember(keys', x)
      ensures x in links' && IsNext(keys', x, links'[x])
    {
      if x != prev && x != At(key) {
        assert IsMember(keys, x);
        assert links'[x].At? && Precedes(x, key) ==> links'[x].key < key by {
          if x.At? && x.key < key {
            assert !Precedes(prev, x.key);
            assert prev.At? ==> prev.key in keys;
          }
        }
      }
    }
  }

  // ---- Searching

  datatype Goal = AtOrAfter(target: Key) | Before(target: Key) | Last

  // The search goes on along the level.
  predicate Passes(goal: Goal, next: Node) {
    next.At? && (goal.Last? || next.key < goal.target)
  }

  // What a search of `keys` must return: the least key at or after the target, the greatest
  // key before it, or the greatest key of all.
  ghost predicate IsAnswer(keys: set<Key>, goal: Goal, result: Node) {
    match goal
    case AtOrAfter(t) =>
      if result.Null? then forall k | k in keys :: k < t
      else result.At? && result.key in keys && t <= result.key && forall k | k in keys && t <= k :: result.key <= k
    case Before(t) => IsPrevious(keys, result, t)
    case Last => IsMember(keys, result) && forall k | k in keys :: !Precedes(result, k)
  }

  // A reader that has come to `x` has passed only keys on its side of the goal.
  ghost predicate OnTheWay(goal: Goal, x: Node) {
    x.Head? || Passes(goal, x)
  }

  // The last read of a search is of the lowest level, and settles the answer at that moment.
  lemma LastReadAnswers(links: map<Node, Node>, keys: set<Key>, goal: Goal, x: Node)
    requires Linked(links, keys) && IsMember(keys, x) && OnTheWay(goal, x)
    requires !Passes(goal, links[x])
    ensures IsAnswer(keys, goal, if goal.AtOrAfter? then links[x] else x)
  {
  }

  // ---- The list

  ghost predicate ListOk(links: seq<map<Node, Node>>, levels: seq<set<Key>>) {
    && |links| == MAX_HEIGHT == |levels|
    && (forall i | 0 <= i < MAX_HEIGHT :: Linked(links[i], levels[i]))
    && forall i | 0 < i < MAX_HEIGHT :: levels[i] <= levels[i-1]
  }

  lemma PreviousIsLinked(links: seq<map<Node, Node>>, levels: seq<set<Key>>, i: nat, key: Key, prev: Node)
    requires ListOk(links, levels) && i < MAX_HEIGHT && IsPrevious(levels[i], prev, key)
    ensures prev in links[i] && prev != At(key)
  {
    assert Linked(links[i], levels[i]);
  }

  lemma OwnLinkKeepsList(links: seq<map<Node, Node>>, levels: seq<set<Key>>, i: nat, key: Key, y: Node)
    requires ListOk(links, levels) && i < MAX_HEIGHT && key !in levels[i]
    ensures ListOk(links[i := links[i][At(key) := y]], levels)
  {
    StoreOwnLink(links[i], levels[i], key, y);
    hide Linked;
  }

  // A node is in every lower level already when it is linked into this one.
  lemma LinkToKeepsList(links: seq<map<Node, Node>>, levels: seq<set<Key>>, i: nat, key: Key, prev: Node)
    requires ListOk(links, levels) && i < MAX_HEIGHT && key !in levels[i] && IsPrevious(levels[i], prev, key)
    requires At(key) in links[i] && prev in links[i] && links[i][At(key)] == links[i][prev]
    requires 0 < i ==> key in levels[i-1]
    ensures ListOk(links[i := links[i][prev := At(key)]], levels[i := levels[i] + {key}])
  {
    StoreLinkTo(links[i], levels[i], prev, key);
    hide Linked, IsPrevious;
  }

  ghost function Ahead(keys: set<Key>, x: Node): set<Key> {
    set k | k in keys && Precedes(x, k)
  }

  class SkipList {
    const links: array<map<Node, Node>>
    var maxHeight: nat
    ghost var levels: seq<set<Key>>

    ghost predicate Valid()
      reads this, links
    {
      && links.Length == MAX_HEIGHT && ListOk(links[..], levels)
      && 1 <= maxHeight <= MAX_HEIGHT && forall i | maxHeight <= i < MAX_HEIGHT :: levels[i] == {}
    }

    constructor ()
      ensures Valid() && fresh(links) && levels[0] == {}
    {
      links := new map<Node, Node>[MAX_HEIGHT](_ => map[Head := Null]);
      maxHeight := 1;
      levels := seq(MAX_HEIGHT, _ => {});
      new;
      assert forall i | 0 <= i < MAX_HEIGHT :: links[i] == map[Head := Null];
    }

    // For each level in use, the last node before `key`; and the first node not before it.
    method FindGreaterOrEqual(key: Key) returns (node: Node, prev: seq<Node>)
      requires Valid()
      ensures IsAnswer(levels[0], AtOrAfter(key), node)
      ensures |prev| == MAX_HEIGHT && forall i | 0 <= i < maxHeight :: IsPrevious(levels[i], prev[i], key)
    {
      var x, level := Head, maxHeight - 1;
      prev := seq(MAX_HEIGHT, _ => Head);
      while true
        invariant 0 <= level < maxHeight && |prev| == MAX_HEIGHT
        invariant IsMember(levels[level], x) && OnTheWay(AtOrAfter(key), x)
        invariant forall i | level < i < maxHeight :: IsPrevious(levels[i], prev[i], key)
        decreases level, Ahead(levels[level], x)
      {
        assert Linked(links[..][level], levels[level]);
        var next := links[level][x];
        if next.At? && next.key < key {
          assert next.key in Ahead(levels[level], x) - Ahead(levels[level], next);
          assert Ahead(levels[level], next) <= Ahead(levels[level], x);
          x := next;
        } else {
          LastReadAnswers(links[level], levels[level], AtOrAfter(key), x);
          LastReadAnswers(links[level], levels[level], Before(key), x);
          prev := prev[level := x];
          if level == 0 {
            return next, prev;
          }
          level := level - 1;
        }
      }
    }

    method FindLessThan(key: Key) returns (node: Node)
      requires Valid()
      ensures IsAnswer(levels[0], Before(key), node)
    {
      var x, level := Head, maxHeight - 1;
      while true
        invariant 0 <= level < maxHeight
        invariant IsMember(levels[level], x) && OnTheWay(Before(key), x)
        decreases level, Ahead(levels[level], x)
      {
        assert Linked(links[..][level], levels[level]);
        var next := links[level][x];
        if next.Null? || next.key >= key {
          LastReadAnswers(links[level], levels[level], Before(key), x);
          if level == 0 {
            return x;
          }
          level := level - 1;
        } else {
          assert next.key in Ahead(levels[level], x) - Ahead(levels[level], next);
          assert Ahead(levels[level], next) <= Ahead(levels[level], x);
          x := next;
        }
      }
    }

    method FindLast() returns (node: Node)
      requires Valid()
      ensures IsAnswer(levels[0], Last, node)
    {
      var x, level := Head, maxHeight - 1;
      while true
        invariant 0 <= level < maxHeight && IsMember(levels[level], x)
        decreases level, Ahead(levels[level], x)
      {
        assert Linked(links[..][level], levels[level]);
        var next := links[level][x];
        if next.Null? {
          LastReadAnswers(links[level], levels[level], Last, x);
          if level == 0 {
            return x;
          }
          level := level - 1;
        } else {
          assert next.key in Ahead(levels[level], x) - Ahead(levels[level], next);
          assert Ahead(levels[level], next) <= Ahead(levels[level], x);
          x := next;
        }
      }
    }

    method Insert(key: Key, height: nat)
      requires Valid() && key !in levels[0] && 1 <= height <= MAX_HEIGHT
      modifies this, links
      ensures Valid()
      ensures forall i | 0 <= i < MAX_HEIGHT :: levels[i] == old(levels[i]) + if i < height then {key} else {}
    {
      var _, prev := FindGreaterOrEqual(key);
      if height > maxHeight {
        for i := maxHeight to height
          invariant |prev| == MAX_HEIGHT
          invariant forall j | 0 <= j < i :: IsPrevious(levels[j], prev[j], key)
        {
          prev := prev[i := Head];
        }
        maxHeight := height;
      }
      NotAbove(levels, key);
      ghost var before := levels;
      for i := 0 to height
        invariant links.Length == MAX_HEIGHT == |levels| && ListOk(links[..], levels) && height <= maxHeight <= MAX_HEIGHT
        invariant forall j | 0 <= j < MAX_HEIGHT :: levels[j] == before[j] + if j < i then {key} else {}
        invariant forall j | maxHeight <= j < MAX_HEIGHT :: before[j] == {}
      {
        hide ListOk, IsPrevious;
        LinkIn(i, key, prev[i]);
      }
    }

    // Links the new node in behind `prev` on one level.
    method LinkIn(i: nat, key: Key, prev: Node)
      requires links.Length == MAX_HEIGHT == |levels| && ListOk(links[..], levels) && i < MAX_HEIGHT
      requires key !in levels[i] && IsPrevious(levels[i], prev, key) && (0 < i ==> key in levels[i-1])
      modifies this`levels, links
      ensures ListOk(links[..], levels) && levels == old(levels)[i := old(levels[i]) + {key}]
    {
      PreviousIsLinked(links[..], levels, i, key, prev);
      hide ListOk, IsPrevious;
      OwnLinkKeepsList(links[..], levels, i, key, links[i][prev]);
      links[i] := links[i][At(key) := links[i][prev]];
      LinkToKeepsList(links[..], levels, i, key, prev);
      links[i] := links[i][prev := At(key)];
      levels := levels[i := levels[i] + {key}];
    }
  }

  lemma {:induction false} NotAbove(levels: seq<set<Key>>, key: Key)
    requires |levels| == MAX_HEIGHT && key !in levels[0]
    requires forall i | 0 < i < MAX_HEIGHT :: levels[i] <= levels[i-1]
    ensures forall i | 0 <= i < MAX_HEIGHT :: key !in levels[i]
  {
    for i := 1 to MAX_HEIGHT
      invariant forall j | 0 <= j < i :: key !in levels[j]
    {
      assert key !in levels[i-1] && levels[i] <= levels[i-1];
    }
  }
}
