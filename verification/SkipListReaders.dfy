// One writer and a reader of a skip list, one load or store at a time.

module SkipListReaders {
  import opened InternalKeys
  import opened SkipLists

  // An insertion has put its node into the levels below `stored`; `ownLink` says that the
  // node's own link at level `stored` is set.
  datatype Insertion = Insertion(key: Key, height: nat, prev: seq<Node>, stored: nat, ownLink: bool)

  // `begun` are the keys whose insertion was complete when the search began.
  datatype Reader =
    | Resting
    | Searching(goal: Goal, x: Node, level: nat, begun: set<Key>)
    | Finished(goal: Goal, result: Node, begun: set<Key>)

  // `levels` are the keys that the links of each level reach.
  datatype State = State(
    links: seq<map<Node, Node>>,
    levels: seq<set<Key>>,
    maxHeight: nat,
    completed: set<Key>,
    writer: Option<Insertion>,
    reader: Reader)

  datatype Step =
    | BeginInsert(insertion: Insertion)
    | StoreOwn
    | StoreTo
    | EndInsert
    | BeginSearch(goal: Goal, height: nat)
    | Load

  ghost predicate Init(s: State) {
    s == State(seq(MAX_HEIGHT, _ => map[Head := Null]), seq(MAX_HEIGHT, _ => {}), 1, {}, None, Resting)
  }

  // The writer has found the nodes to link from, and raised the height if need be.
  ghost predicate BeginInsertStep(s: State, w: Insertion, s': State) {
    && |s.levels| == MAX_HEIGHT && s.writer.None?
    && w.key !in s.levels[0] && 1 <= w.height <= MAX_HEIGHT && |w.prev| == w.height
    && (forall i | 0 <= i < w.height :: IsPrevious(s.levels[i], w.prev[i], w.key))
    && w.stored == 0 && !w.ownLink
    && s' == s.(writer := Some(w), maxHeight := if w.height > s.maxHeight then w.height else s.maxHeight)
  }

  ghost predicate StoreOwnStep(s: State, s': State) {
    && s.writer.Some? && |s.links| == MAX_HEIGHT
    && var w := s.writer.value;
    && !w.ownLink && w.stored < w.height <= MAX_HEIGHT && |w.prev| == w.height
    && var i, prev := w.stored, w.prev[w.stored];
    && prev in s.links[i]
    && s' == s.(links := s.links[i := s.links[i][At(w.key) := s.links[i][prev]]], writer := Some(w.(ownLink := true)))
  }

  ghost predicate StoreToStep(s: State, s': State) {
    && s.writer.Some? && |s.links| == MAX_HEIGHT == |s.levels|
    && var w := s.writer.value;
    && w.ownLink && w.stored < w.height <= MAX_HEIGHT && |w.prev| == w.height
    && var i, prev := w.stored, w.prev[w.stored];
    && s' == s.(links := s.links[i := s.links[i][prev := At(w.key)]],
                levels := s.levels[i := s.levels[i] + {w.key}],
                writer := Some(w.(stored := i + 1, ownLink := false)))
  }

  ghost predicate EndInsertStep(s: State, s': State) {
    && s.writer.Some? && s.writer.value.stored == s.writer.value.height
    && s' == s.(writer := None, completed := s.completed + {s.writer.value.key})
  }

  // A reader may see a height that is out of date.
  ghost predicate BeginSearchStep(s: State, goal: Goal, height: nat, s': State) {
    && !s.reader.Searching? && 1 <= height <= s.maxHeight
    && s' == s.(reader := Searching(goal, Head, height - 1, s.completed))
  }

  ghost predicate LoadStep(s: State, s': State) {
    && s.reader.Searching? && |s.links| == MAX_HEIGHT
    && var r := s.reader;
    && r.level < MAX_HEIGHT && r.x in s.links[r.level]
    && var next := s.links[r.level][r.x];
    && s' == s.(reader :=
         if Passes(r.goal, next) then r.(x := next)
         else if r.level == 0 then Finished(r.goal, if r.goal.AtOrAfter? then next else r.x, r.begun)
         else r.(level := r.level - 1))
  }

  ghost predicate Next(s: State, step: Step, s': State) {
    match step
    case BeginInsert(insertion) => BeginInsertStep(s, insertion, s')
    case StoreOwn => StoreOwnStep(s, s')
    case StoreTo => StoreToStep(s, s')
    case EndInsert => EndInsertStep(s, s')
    case BeginSearch(goal, height) => BeginSearchStep(s, goal, height, s')
    case Load => LoadStep(s, s')
  }

  // ---- What every interleaving keeps

  // The levels from `stored` on do not have the key yet, and their links are as they were found.
  ghost predicate WriterOk(w: Insertion, links: seq<map<Node, Node>>, levels: seq<set<Key>>) {
    && |links| == MAX_HEIGHT == |levels|
    && 1 <= w.height <= MAX_HEIGHT && |w.prev| == w.height && w.stored <= w.height
    && (forall i | w.stored <= i < MAX_HEIGHT :: w.key !in levels[i])
    && (forall i | 0 <= i < w.stored :: w.key in levels[i])
    && (forall i | w.stored <= i < w.height :: IsPrevious(levels[i], w.prev[i], w.key))
    && (w.ownLink ==>
          && w.stored < w.height
          && At(w.key) in links[w.stored] && w.prev[w.stored] in links[w.stored]
          && links[w.stored][At(w.key)] == links[w.stored][w.prev[w.stored]])
  }

  ghost predicate ReaderOk(r: Reader, levels: seq<set<Key>>, completed: set<Key>)
    requires |levels| == MAX_HEIGHT
  {
    && (r.Searching? ==> r.level < MAX_HEIGHT && IsMember(levels[r.level], r.x) && OnTheWay(r.goal, r.x))
    && (!r.Resting? ==> r.begun <= completed)
  }

  // Besides completed keys, only the one being inserted can be seen.
  ghost predicate SeenOk(levels0: set<Key>, completed: set<Key>, writer: Option<Insertion>) {
    levels0 == completed + if writer.Some? && 0 < writer.value.stored then {writer.value.key} else {}
  }

  ghost predicate Inv(s: State) {
    && ListOk(s.links, s.levels) && 1 <= s.maxHeight <= MAX_HEIGHT
    && (s.writer.Some? ==> WriterOk(s.writer.value, s.links, s.levels))
    && ReaderOk(s.reader, s.levels, s.completed)
    && SeenOk(s.levels[0], s.completed, s.writer)
  }

  lemma InitKeepsInv(s: State)
    requires Init(s)
    ensures Inv(s)
  {
  }

  lemma BeginInsertKeepsInv(s: State, w: Insertion, s': State)
    requires Inv(s) && BeginInsertStep(s, w, s')
    ensures Inv(s')
  {
    NotAbove(s.levels, w.key);
    hide Linked, IsPrevious;
  }

  lemma StoreOwnKeepsInv(s: State, s': State)
    requires Inv(s) && StoreOwnStep(s, s')
    ensures Inv(s')
  {
    var w := s.writer.value;
    OwnLinkKeepsList(s.links, s.levels, w.stored, w.key, s.links[w.stored][w.prev[w.stored]]);
    assert w.prev[w.stored] != At(w.key);
    hide ListOk, IsPrevious;
  }

  lemma StoreToKeepsInv(s: State, s': State)
    requires Inv(s) && StoreToStep(s, s')
    ensures Inv(s')
  {
    var w := s.writer.value;
    LinkToKeepsList(s.links, s.levels, w.stored, w.key, w.prev[w.stored]);
    hide ListOk, IsPrevious;
  }

  lemma LoadKeepsInv(s: State, s': State)
    requires Inv(s) && LoadStep(s, s')
    ensures Inv(s')
  {
    var r := s.reader;
    assert Linked(s.links[r.level], s.levels[r.level]);
    assert r.level > 0 ==> s.levels[r.level] <= s.levels[r.level-1];
    hide ListOk, WriterOk;
  }

  lemma StepKeepsInv(s: State, step: Step, s': State)
    requires Inv(s) && Next(s, step, s')
    ensures Inv(s')
  {
    match step {
      case BeginInsert(insertion) => BeginInsertKeepsInv(s, insertion, s');
      case StoreOwn => StoreOwnKeepsInv(s, s');
      case StoreTo => StoreToKeepsInv(s, s');
      case Load => LoadKeepsInv(s, s');
      case _ => hide ListOk;
    }
  }

  ghost predicate IsInterleaving(states: seq<State>, steps: seq<Step>) {
    && |states| == |steps| + 1
    && Init(states[0])
    && forall i | 0 <= i < |steps| :: Next(states[i], steps[i], states[i+1])
  }

  lemma {:induction false} RunKeepsInv(states: seq<State>, steps: seq<Step>, n: nat)
    requires IsInterleaving(states, steps) && n < |states|
    ensures Inv(states[n])
  {
    hide Inv, Next, Init;
    if n == 0 {
      InitKeepsInv(states[0]);
    } else {
      RunKeepsInv(states, steps, n - 1);
      StepKeepsInv(states[n-1], steps[n-1], states[n]);
    }
  }

  // ---- The main results

  // After every single store, every level is an ascending list of keys of the level below it.
  lemma EveryLevelIsASortedSublist(states: seq<State>, steps: seq<Step>, n: nat, i: nat)
    requires IsInterleaving(states, steps) && n < |states| && i < MAX_HEIGHT
    ensures |states[n].links| == MAX_HEIGHT == |states[n].levels|
    ensures exists ks ::
              && IsWalk(states[n].links[i], Head, ks) && Ascending(ks)
              && (forall k | k in ks :: k in states[n].levels[i])
              && (forall k | k in states[n].levels[i] :: k in ks)
    ensures 0 < i ==> states[n].levels[i] <= states[n].levels[i-1]
  {
    RunKeepsInv(states, steps, n);
    LinkedIsSortedList(states[n].links[i], states[n].levels[i]);
  }

  // A search that ends returns the right answer among the keys in the list at that moment,
  // and every key whose insertion was complete when the search began is among them.
  lemma SearchesAreAtomic(states: seq<State>, steps: seq<Step>, n: nat)
    requires IsInterleaving(states, steps) && n < |steps|
    requires states[n].reader.Searching? && states[n+1].reader.Finished?
    ensures |states[n].levels| == MAX_HEIGHT
    ensures var r := states[n+1].reader;
            && IsAnswer(states[n].levels[0], r.goal, r.result)
            && r.begun <= states[n].levels[0]
  {
    RunKeepsInv(states, steps, n);
    var s := states[n];
    assert Next(s, steps[n], states[n+1]);
    assert Linked(s.links[0], s.levels[0]);
    LastReadAnswers(s.links[0], s.levels[0], s.reader.goal, s.reader.x);
  }

  // A search that goes on can always take its next load.
  lemma ReadersNeverBlock(states: seq<State>, steps: seq<Step>, n: nat)
    requires IsInterleaving(states, steps) && n < |states| && states[n].reader.Searching?
    ensures exists s' :: Next(states[n], Load, s')
  {
    RunKeepsInv(states, steps, n);
    var s, r := states[n], states[n].reader;
    assert Linked(s.links[r.level], s.levels[r.level]);
    var next := s.links[r.level][r.x];
    var r' := if Passes(r.goal, next) then r.(x := next)
              else if r.level == 0 then Finished(r.goal, if r.goal.AtOrAfter? then next else r.x, r.begun)
              else r.(level := r.level - 1);
    assert Next(s, Load, s.(reader := r'));
  }
}
