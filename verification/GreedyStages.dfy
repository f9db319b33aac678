/** The greedy growth of construct_tree's iterative mode, on values, for any node flagged by mistake at the start. */
module GreedyStages {
  import opened Graphs

  /** metric has a link from u to v at interface pair (0, 0). */
  predicate Joins(metric: Adjacency, u: nat, v: nat) {
    u < |metric| && FindIn(metric[u], v, 0, 0).Some?
  }

  /**
   * The nodes flagged as members of the tree, the nodes that wait in Q, and the parent of each node attached so far.
   */
  datatype Stage = Stage(flags: set<nat>, waiting: set<nat>, parent: map<nat, nat>)

  datatype Pick = Pick(node: nat, attachPoint: nat)

  /** A trial that finds a metric link. */
  ghost predicate Candidate(m: Adjacency, s: Stage, p: Pick) {
    p.node in s.waiting && p.attachPoint in s.flags && p.node != p.attachPoint && Joins(m, p.attachPoint, p.node)
  }

  /**
   * One round: the trials clear the flags of waiting nodes, then the pick is attached and both its ends are flagged.
   */
  function Next(s: Stage, p: Pick): Stage {
    Stage(s.flags - s.waiting + {p.node, p.attachPoint}, s.waiting - {p.node}, s.parent[p.node := p.attachPoint])
  }

  function After(s: Stage, picks: seq<Pick>): Stage {
    if picks == [] then s else Next(After(s, picks[..|picks| - 1]), picks[|picks| - 1])
  }

  /** The gateway is in the tree, the other valid nodes wait; stale is flagged as well. */
  function Start(valid: set<nat>, root: nat, stale: nat): Stage {
    Stage({root, stale}, valid - {root}, map[])
  }

  ghost predicate IsRun(m: Adjacency, s: Stage, picks: seq<Pick>) {
    forall k :: 0 <= k < |picks| ==> Candidate(m, After(s, picks[..k]), picks[k])
  }

  /** Nothing waits, or nothing that waits can be attached. */
  ghost predicate Ended(m: Adjacency, s: Stage) {
    forall p :: !Candidate(m, s, p)
  }

  /** The order in which the two loops try pairs. */
  predicate Before(p: Pick, q: Pick) {
    p.node < q.node || (p.node == q.node && p.attachPoint < q.attachPoint)
  }

  /** The first of the trials with the highest score. */
  ghost predicate IsBest(m: Adjacency, s: Stage, score: (nat, nat) -> real, p: Pick) {
    && Candidate(m, s, p)
    && forall q :: Candidate(m, s, q) ==>
                     score(q.node, q.attachPoint) <= score(p.node, p.attachPoint)
                     && (score(q.node, q.attachPoint) == score(p.node, p.attachPoint) ==> !Before(q, p))
  }

  /** In plain words: no waiting node scores more at any flagged node that has a link to it. */
  lemma BestIsGreatest(m: Adjacency, s: Stage, score: (nat, nat) -> real, p: Pick, i: nat, j: nat)
    requires IsBest(m, s, score, p)
    ensures p.node in s.waiting && p.attachPoint in s.flags && Joins(m, p.attachPoint, p.node)
    ensures i in s.waiting && j in s.flags && i != j && Joins(m, j, i) ==>
              score(i, j) < score(p.node, p.attachPoint)
              || (score(i, j) == score(p.node, p.attachPoint)
                  && (p.node < i || (p.node == i && p.attachPoint <= j)))
  {
    hide Joins;
    if i in s.waiting && j in s.flags && i != j && Joins(m, j, i) {
      assert Candidate(m, s, Pick(i, j));
    }
  }

  /** The pick of a round; its number is the count of nodes that wait, less those the loop has not counted. */
  ghost predicate Chosen(m: Adjacency, s: Stage, score: (nat, nat, nat) -> real, spare: nat, p: Pick) {
    |s.waiting| > spare && IsBest(m, s, OfRound(score, |s.waiting| - spare), p)
  }

  /**
   * The picks are what the loop makes of the scores; a score may depend on the number of the round. The loop ends when
   * nothing can be attached, or when no more than spare nodes wait: spare is 0 with a valid gateway, and 1 with one
   * that is taken off the count without being part of it.
   */
  ghost predicate Greedy(m: Adjacency, s: Stage, score: (nat, nat, nat) -> real, spare: nat, picks: seq<Pick>) {
    && (forall k :: 0 <= k < |picks| ==> Chosen(m, After(s, picks[..k]), score, spare, picks[k]))
    && (|After(s, picks).waiting| <= spare || Ended(m, After(s, picks)))
  }

  function OfRound(score: (nat, nat, nat) -> real, n: nat): (nat, nat) -> real {
    (v: nat, u: nat) => score(n, v, u)
  }

  // ---------- what the answer should be ----------

  /** p leads from a to v, behind its first node through the given nodes, along links at pair (0, 0). */
  ghost predicate Leads(m: Adjacency, through: set<nat>, p: seq<nat>, a: nat, v: nat) {
    && p != [] && p[0] == a && p[|p| - 1] == v
    && (forall i :: 0 < i < |p| ==> p[i] in through)
    && forall i :: 0 < i < |p| ==> Joins(m, p[i - 1], p[i])
  }

  ghost predicate Reachable(m: Adjacency, through: set<nat>, a: nat, v: nat) {
    exists p :: Leads(m, through, p, a, v)
  }

  /** p goes down from a to v along recorded parents, at least one step. */
  ghost predicate Chain(parent: map<nat, nat>, p: seq<nat>, a: nat, v: nat) {
    && |p| >= 2 && p[0] == a && p[|p| - 1] == v
    && forall i :: 0 < i < |p| ==> p[i] in parent && parent[p[i]] == p[i - 1]
  }

  ghost predicate Hangs(parent: map<nat, nat>, a: nat, v: nat) {
    exists p :: Chain(parent, p, a, v)
  }

  /**
   * A tree of the valid nodes: each but the root has a valid parent that metric links to it, and hangs from the root.
   */
  ghost predicate Spans(m: Adjacency, valid: set<nat>, root: nat, parent: map<nat, nat>) {
    && parent.Keys == valid - {root}
    && forall v :: v in parent.Keys ==> parent[v] in valid && Joins(m, parent[v], v) && Hangs(parent, root, v)
  }

  ghost predicate AllReachable(m: Adjacency, valid: set<nat>, root: nat) {
    forall v :: v in valid ==> Reachable(m, valid, root, v)
  }

  /** The loop ends as it should: with a spanning tree if there is one, else with nodes left over, which gives NULL. */
  ghost predicate Right(m: Adjacency, valid: set<nat>, root: nat, s: Stage) {
    if AllReachable(m, valid, root) then s.waiting == {} && Spans(m, valid, root, s.parent) else s.waiting != {}
  }

  /**
   * From stale, links lead to a valid node without meeting the gateway, and on, back to stale, if stale is valid
   * itself.
   */
  ghost predicate Back(m: Adjacency, valid: set<nat>, root: nat, stale: nat) {
    exists p :: BackAlong(m, valid, root, stale, p)
  }

  ghost predicate BackAlong(m: Adjacency, valid: set<nat>, root: nat, stale: nat, p: seq<nat>) {
    && |p| >= 2 && Leads(m, valid - {root}, p, stale, p[|p| - 1])
    && (forall k :: 0 < k < |p| - 1 ==> p[k] != stale)
    && (stale in valid ==> |p| >= 3 && p[|p| - 1] == stale)
  }

  /** When a flag left set on node stale does no harm. */
  ghost predicate Harmless(m: Adjacency, valid: set<nat>, root: nat, stale: nat) {
    || (exists v :: v in valid && !Reachable(m, valid, root, v) && !Reachable(m, valid, stale, v))
    || !Back(m, valid, root, stale)
  }

  // ---------- stages of a run ----------

  ghost predicate Sensible(m: Adjacency, valid: set<nat>, root: nat, stale: nat, s: Stage) {
    && s.waiting <= valid - {root} && s.parent.Keys == valid - {root} - s.waiting
    && s.parent.Keys + {root} <= s.flags <= s.parent.Keys + {root, stale}
    && (stale !in s.waiting ==> stale in s.flags)
    && forall v :: v in s.parent.Keys ==>
                     && s.parent[v] in s.parent.Keys + {root, stale} && s.parent[v] != v && Joins(m, s.parent[v], v)
                     && (Hangs(s.parent, root, v) || Hangs(s.parent, stale, v))
  }

  lemma StartSensible(m: Adjacency, valid: set<nat>, root: nat, stale: nat)
    ensures Sensible(m, valid, root, stale, Start(valid, root, stale))
  {
  }

  /** Attaching a node that waits leaves the chains there are. */
  lemma HangsStill(parent: map<nat, nat>, a: nat, v: nat, x: nat, u: nat)
    requires Hangs(parent, a, v) && x !in parent
    ensures Hangs(parent[x := u], a, v)
  {
    var p :| Chain(parent, p, a, v);
    assert Chain(parent[x := u], p, a, v);
  }

  /** A node attached to a, or to a node that hangs from a, hangs from a. */
  lemma HangsNext(parent: map<nat, nat>, a: nat, u: nat, v: nat)
    requires v in parent && parent[v] == u && (u == a || Hangs(parent, a, u))
    ensures Hangs(parent, a, v)
  {
    if u == a {
      assert Chain(parent, [a, v], a, v);
    } else {
      var p :| Chain(parent, p, a, u);
      assert Chain(parent, p + [v], a, v);
    }
  }

  lemma NextSensible(m: Adjacency, valid: set<nat>, root: nat, stale: nat, s: Stage, p: Pick)
    requires Sensible(m, valid, root, stale, s) && Candidate(m, s, p)
    ensures Sensible(m, valid, root, stale, Next(s, p))
  {
    hide Hangs, Joins;
    var t, u := Next(s, p), p.attachPoint;
    forall v | v in s.parent.Keys
      ensures Hangs(t.parent, root, v) || Hangs(t.parent, stale, v)
    {
      if Hangs(s.parent, root, v) {
        HangsStill(s.parent, root, v, p.node, u);
      } else {
        HangsStill(s.parent, stale, v, p.node, u);
      }
    }
    if u == root || (u in s.parent && Hangs(t.parent, root, u)) {
      HangsNext(t.parent, root, u, p.node);
    } else {
      HangsNext(t.parent, stale, u, p.node);
    }
  }

  lemma {:induction false} RunSensible(m: Adjacency, valid: set<nat>, root: nat, stale: nat, picks: seq<Pick>)
    requires IsRun(m, Start(valid, root, stale), picks)
    ensures Sensible(m, valid, root, stale, After(Start(valid, root, stale), picks))
  {
    hide Sensible, Candidate;
    var s := Start(valid, root, stale);
    if picks == [] {
      StartSensible(m, valid, root, stale);
    } else {
      var init, last := picks[..|picks| - 1], picks[|picks| - 1];
      RunInit(m, s, picks);
      RunSensible(m, valid, root, stale, init);
      NextSensible(m, valid, root, stale, After(s, init), last);
    }
  }

  lemma RunInit(m: Adjacency, s: Stage, picks: seq<Pick>)
    requires IsRun(m, s, picks) && picks != []
    ensures IsRun(m, s, picks[..|picks| - 1]) && Candidate(m, After(s, picks[..|picks| - 1]), picks[|picks| - 1])
  {
    hide Candidate;
    var init := picks[..|picks| - 1];
    forall k | 0 <= k < |init|
      ensures Candidate(m, After(s, init[..k]), init[k])
    {
      assert init[..k] == picks[..k] && init[k] == picks[k];
    }
  }

  lemma RunMore(m: Adjacency, s: Stage, picks: seq<Pick>, p: Pick)
    requires IsRun(m, s, picks) && Candidate(m, After(s, picks), p)
    ensures IsRun(m, s, picks + [p]) && After(s, picks + [p]) == Next(After(s, picks), p)
  {
    hide Candidate;
    var more := picks + [p];
    assert more[..|more| - 1] == picks;
    forall k | 0 <= k < |more|
      ensures Candidate(m, After(s, more[..k]), more[k])
    {
      if k < |picks| {
        assert more[..k] == picks[..k];
      }
    }
  }

  // ---------- nodes left over ----------

  /** Where nothing more can be attached, what waits is out of reach of every flagged node that does not wait. */
  lemma {:induction false} NotWaiting(m: Adjacency, valid: set<nat>, root: nat,
                                      stale: nat, s: Stage, p: seq<nat>, a: nat, v: nat)
    requires Sensible(m, valid, root, stale, s) && Ended(m, s) && a in s.flags && a !in s.waiting
    requires Leads(m, valid, p, a, v)
    ensures v !in s.waiting
    decreases |p|
  {
    hide Joins;
    if |p| > 1 {
      var init, u := p[..|p| - 1], p[|p| - 2];
      NotWaiting(m, valid, root, stale, s, init, a, u);
      assert Joins(m, p[|p| - 1 - 1], p[|p| - 1]);
      assert u in s.flags;
      assert !Candidate(m, s, Pick(v, u));
    }
  }

  lemma OutOfReach(m: Adjacency, valid: set<nat>, root: nat, stale: nat, s: Stage, a: nat)
    requires Sensible(m, valid, root, stale, s) && Ended(m, s) && a in s.flags && a !in s.waiting
    ensures forall v :: v in s.waiting ==> !Reachable(m, valid, a, v)
  {
    hide Sensible, Ended, Leads;
    forall v | v in s.waiting
      ensures !Reachable(m, valid, a, v)
    {
      if Reachable(m, valid, a, v) {
        var p :| Leads(m, valid, p, a, v);
        NotWaiting(m, valid, root, stale, s, p, a, v);
      }
    }
  }

  /** NULL is always the right answer. */
  lemma LeftOverRight(m: Adjacency, valid: set<nat>, root: nat, stale: nat, s: Stage)
    requires Sensible(m, valid, root, stale, s) && Ended(m, s) && s.waiting != {}
    ensures Right(m, valid, root, s)
  {
    OutOfReach(m, valid, root, stale, s, root);
    var v :| v in s.waiting;
    assert v in valid && !Reachable(m, valid, root, v);
  }

  // ---------- a harmless flag ----------

  lemma ChainInside(m: Adjacency, valid: set<nat>, root: nat, stale: nat, s: Stage, p: seq<nat>, a: nat, v: nat)
    requires Sensible(m, valid, root, stale, s) && Chain(s.parent, p, a, v)
    ensures Leads(m, valid - {root}, p, a, v) && Leads(m, valid, p, a, v)
  {
    hide Joins, Hangs;
    forall i | 0 < i < |p|
      ensures p[i] in valid - {root} && Joins(m, p[i - 1], p[i])
    {
      assert p[i] in s.parent;
    }
  }

  lemma ChainJoin(parent: map<nat, nat>, a: nat, b: nat, c: nat)
    requires Hangs(parent, a, b) && Hangs(parent, b, c)
    ensures Hangs(parent, a, c)
  {
    var p :| Chain(parent, p, a, b);
    var q :| Chain(parent, q, b, c);
    var r := p + q[1..];
    forall i | 0 < i < |r|
      ensures r[i] in parent && parent[r[i]] == r[i - 1]
    {
      if i >= |p| {
        var j := i - |p| + 1;
        assert r[i] == q[j] && r[i - 1] == q[j - 1];
      }
    }
    assert Chain(parent, r, a, c);
  }

  /** A chain from stale is a way back, cut where it meets stale again. */
  lemma {:induction false} ChainIsBack(m: Adjacency, valid: set<nat>, root: nat, stale: nat, s: Stage, p: seq<nat>)
    requires Sensible(m, valid, root, stale, s) && |p| >= 2 && Chain(s.parent, p, stale, p[|p| - 1])
    requires stale in valid ==> p[|p| - 1] == stale
    ensures Back(m, valid, root, stale)
    decreases |p|
  {
    hide Sensible, Hangs;
    if k :| 0 < k < |p| - 1 && p[k] == stale {
      ChainIsBack(m, valid, root, stale, s, p[..k + 1]);
    } else {
      ChainInside(m, valid, root, stale, s, p, stale, p[|p| - 1]);
      NoSelfParent(m, valid, root, stale, s, p);
      assert BackAlong(m, valid, root, stale, p);
    }
  }

  lemma NoSelfParent(m: Adjacency, valid: set<nat>, root: nat, stale: nat, s: Stage, p: seq<nat>)
    requires Sensible(m, valid, root, stale, s) && |p| >= 2 && Chain(s.parent, p, p[0], p[|p| - 1])
    ensures p[0] == p[|p| - 1] ==> |p| >= 3
  {
    hide Hangs, Joins;
    assert p[1] in s.parent && s.parent[p[1]] == p[1 - 1];
  }

  lemma HangsReachable(m: Adjacency, valid: set<nat>, root: nat, stale: nat, s: Stage, a: nat, v: nat)
    requires Sensible(m, valid, root, stale, s) && Hangs(s.parent, a, v)
    ensures Reachable(m, valid, a, v)
  {
    hide Sensible;
    var p :| Chain(s.parent, p, a, v);
    ChainInside(m, valid, root, stale, s, p, a, v);
  }

  /** Without a way back every attached node hangs from the gateway once nothing waits. */
  lemma HangsFromRoot(m: Adjacency, valid: set<nat>, root: nat, stale: nat, s: Stage, v: nat)
    requires Sensible(m, valid, root, stale, s) && s.waiting == {} && !Back(m, valid, root, stale) && v in s.parent
    ensures Hangs(s.parent, root, v)
  {
    hide Joins, Hangs, Back;
    if !Hangs(s.parent, root, v) {
      StaleHangs(m, valid, root, stale, s, v);
      assert stale in valid;
      if stale == root {
        assert false;
      } else if Hangs(s.parent, root, stale) {
        ChainJoin(s.parent, root, stale, v);
      } else {
        StaleHangs(m, valid, root, stale, s, stale);
      }
    }
  }

  lemma StaleHangs(m: Adjacency, valid: set<nat>, root: nat, stale: nat, s: Stage, v: nat)
    requires Sensible(m, valid, root, stale, s) && Hangs(s.parent, stale, v) && !Back(m, valid, root, stale)
    ensures stale in valid && v != stale
  {
    hide Sensible, Back;
    var p :| Chain(s.parent, p, stale, v);
    if stale !in valid || v == stale {
      ChainIsBack(m, valid, root, stale, s, p);
    }
  }

  lemma AllReached(m: Adjacency, valid: set<nat>, root: nat, stale: nat, s: Stage)
    requires Sensible(m, valid, root, stale, s) && s.waiting == {}
    ensures forall v :: v in valid ==> Reachable(m, valid, root, v) || Reachable(m, valid, stale, v)
  {
    hide Reachable, Hangs, Joins;
    forall v | v in valid
      ensures Reachable(m, valid, root, v) || Reachable(m, valid, stale, v)
    {
      if v == root {
        ReachesItself(m, valid, root);
      } else if Hangs(s.parent, root, v) {
        HangsReachable(m, valid, root, stale, s, root, v);
      } else {
        HangsReachable(m, valid, root, stale, s, stale, v);
      }
    }
  }

  lemma ReachesItself(m: Adjacency, valid: set<nat>, a: nat)
    ensures Reachable(m, valid, a, a)
  {
    assert Leads(m, valid, [a], a, a);
  }

  /** Under the condition every run gives the right answer, whatever the scores. */
  lemma HarmlessRight(m: Adjacency, valid: set<nat>, root: nat, stale: nat, s: Stage)
    requires Sensible(m, valid, root, stale, s) && Ended(m, s) && Harmless(m, valid, root, stale) && root in valid
    ensures Right(m, valid, root, s)
  {
    hide Ended, Hangs, Reachable, Back, Joins;
    if s.waiting != {} {
      LeftOverRight(m, valid, root, stale, s);
    } else {
      AllReached(m, valid, root, stale, s);
      forall v | v in s.parent.Keys
        ensures s.parent[v] in valid && Hangs(s.parent, root, v)
      {
        HangsFromRoot(m, valid, root, stale, s, v);
        if s.parent[v] == stale && stale !in valid {
          HangsNext(s.parent, stale, stale, v);
          StaleHangs(m, valid, root, stale, s, v);
        }
      }
      forall v | v in valid
        ensures Reachable(m, valid, root, v)
      {
        if v == root {
          ReachesItself(m, valid, root);
        } else {
          HangsReachable(m, valid, root, stale, s, root, v);
        }
      }
    }
  }

  // ---------- a harmful flag ----------

  /**
   * within holds stale and, but for it, only attached nodes; parents do not lead out of it, and so never to the
   * gateway.
   */
  ghost predicate Trapped(s: Stage, root: nat, stale: nat, within: set<nat>) {
    && root !in within && stale in within && within - {stale} <= s.parent.Keys
    && forall v :: v in within && v in s.parent ==> s.parent[v] in within
  }

  lemma {:induction false} TrappedChain(s: Stage, root: nat, stale: nat, within: set<nat>, p: seq<nat>, a: nat, v: nat)
    requires Trapped(s, root, stale, within) && Chain(s.parent, p, a, v) && v in within
    ensures a in within
    decreases |p|
  {
    var u := p[|p| - 2];
    assert p[|p| - 1] in s.parent && s.parent[p[|p| - 1]] == p[|p| - 1 - 1];
    if |p| > 2 {
      TrappedChain(s, root, stale, within, p[..|p| - 1], a, u);
    }
  }

  /** The first picks: along the way back. */
  lemma {:induction false} PicksAlong(m: Adjacency, valid: set<nat>, root: nat, stale: nat, p: seq<nat>, k: nat)
    returns (picks: seq<Pick>, within: set<nat>)
    requires root in valid && stale != root && BackAlong(m, valid, root, stale, p) && k < |p|
    ensures IsRun(m, Start(valid, root, stale), picks)
    ensures var s := After(Start(valid, root, stale), picks);
            && Trapped(s, root, stale, within) && s.parent.Keys <= within
            && (forall i :: 0 <= i <= k ==> p[i] in within) && (k > 0 ==> p[k] in s.parent)
            && (k == 0 ==> picks == [])
            && (k < |p| - 1 ==> stale !in s.parent)
  {
    hide Joins, Hangs, Ended;
    if k == 0 {
      return [], {stale};
    }
    var init, d := PicksAlong(m, valid, root, stale, p, k - 1);
    var start := Start(valid, root, stale);
    var s, pick := After(start, init), Pick(p[k], p[k - 1]);
    RunSensible(m, valid, root, stale, init);
    assert p[k] in valid - {root} && Joins(m, p[k - 1], p[k]);
    picks, within := init, d + {p[k]};
    if p[k] in s.waiting {
      assert Candidate(m, s, pick);
      RunMore(m, start, init, pick);
      picks := init + [pick];
    }
  }

  lemma TrappedNext(m: Adjacency, valid: set<nat>, root: nat, stale: nat, s: Stage, p: Pick, within: set<nat>)
    requires Sensible(m, valid, root, stale, s) && Candidate(m, s, p)
    requires Trapped(s, root, stale, within) && stale !in s.waiting
    ensures Trapped(Next(s, p), root, stale, within) && stale !in Next(s, p).waiting
    ensures |Next(s, p).waiting| < |s.waiting|
  {
    hide Joins, Hangs;
  }

  /** Any run can go on until it ends; what is trapped stays trapped. */
  lemma {:induction false} Complete(m: Adjacency, valid: set<nat>, root: nat,
                                    stale: nat, picks: seq<Pick>, within: set<nat>)
    returns (more: seq<Pick>)
    requires root in valid && IsRun(m, Start(valid, root, stale), picks)
    requires var s := After(Start(valid, root, stale), picks); Trapped(s, root, stale, within) && stale !in s.waiting
    ensures IsRun(m, Start(valid, root, stale), more)
    ensures var s := After(Start(valid, root, stale), more);
            Trapped(s, root, stale, within) && stale !in s.waiting && Ended(m, s)
    decreases |After(Start(valid, root, stale), picks).waiting|
  {
    hide Joins, Hangs, Sensible, Trapped, Candidate, After, IsRun, Next;
    var start := Start(valid, root, stale);
    var s := After(start, picks);
    more := picks;
    if !Ended(m, s) {
      var p :| Candidate(m, s, p);
      RunSensible(m, valid, root, stale, picks);
      RunMore(m, start, picks, p);
      TrappedNext(m, valid, root, stale, s, p, within);
      more := Complete(m, valid, root, stale, picks + [p], within);
    }
  }

  /** Where the condition fails there is a run that ends with a wrong answer. */
  lemma WrongRun(m: Adjacency, valid: set<nat>, root: nat, stale: nat) returns (picks: seq<Pick>)
    requires root in valid && !Harmless(m, valid, root, stale)
    ensures var s := After(Start(valid, root, stale), picks);
            IsRun(m, Start(valid, root, stale), picks) && Ended(m, s) && !Right(m, valid, root, s)
  {
    hide Reachable, Ended, Hangs, Joins;
    var p :| BackAlong(m, valid, root, stale, p);
    assert p[|p| - 1] in valid - {root};
    var along, within := PicksAlong(m, valid, root, stale, p, |p| - 1);
    RunSensible(m, valid, root, stale, along);
    picks := Complete(m, valid, root, stale, along, within);
    RunSensible(m, valid, root, stale, picks);
    var s := After(Start(valid, root, stale), picks);
    OutOfReach(m, valid, root, stale, s, root);
    OutOfReach(m, valid, root, stale, s, stale);
    assert s.waiting == {} by {
      if v :| v in s.waiting {
        assert v in valid;
      }
    }
    NotSpanning(m, valid, root, stale, s, within, p[1]);
  }

  lemma NotSpanning(m: Adjacency, valid: set<nat>, root: nat, stale: nat, s: Stage, within: set<nat>, v: nat)
    requires Trapped(s, root, stale, within) && v in within && v in valid && v != root
    ensures !Spans(m, valid, root, s.parent)
  {
    hide Joins;
    if Spans(m, valid, root, s.parent) {
      assert v in s.parent.Keys;
      var p :| Chain(s.parent, p, root, v);
      TrappedChain(s, root, stale, within, p, root, v);
    }
  }

  // ---------- scores ----------

  ghost predicate NonNegative(score: (nat, nat, nat) -> real) {
    forall n, v, u :: score(n, v, u) >= 0.0
  }

  lemma {:induction false} WaitingLeft(m: Adjacency, s: Stage, picks: seq<Pick>)
    requires IsRun(m, s, picks)
    ensures |After(s, picks).waiting| == |s.waiting| - |picks|
  {
    if picks != [] {
      RunInit(m, s, picks);
      WaitingLeft(m, s, picks[..|picks| - 1]);
    }
  }

  /** Scores that favour the given picks, when n nodes wait at the start. */
  function Favour(n: nat, picks: seq<Pick>): (nat, nat, nat) -> real {
    (left: nat, v: nat, u: nat) => if left <= n && n - left < |picks| && picks[n - left] == Pick(v, u) then 1.0 else 0.0
  }

  lemma FavourBest(m: Adjacency, s: Stage, n: nat, picks: seq<Pick>, k: nat)
    requires k < |picks| && |s.waiting| == n - k && Candidate(m, s, picks[k])
    ensures Chosen(m, s, Favour(n, picks), 0, picks[k])
  {
    hide Joins;
    assert n - (n - k) == k && picks[k].node in s.waiting && |s.waiting| - 0 == |s.waiting|;
  }

  /** Every run that ends is what the loop does for some scores. */
  lemma FavourGreedy(m: Adjacency, s: Stage, picks: seq<Pick>)
    requires IsRun(m, s, picks) && Ended(m, After(s, picks))
    ensures Greedy(m, s, Favour(|s.waiting|, picks), 0, picks)
  {
    hide Candidate, Ended, Chosen, After;
    forall k | 0 <= k < |picks|
      ensures Chosen(m, After(s, picks[..k]), Favour(|s.waiting|, picks), 0, picks[k])
    {
      RunPrefix(m, s, picks, k);
      WaitingLeft(m, s, picks[..k]);
      FavourBest(m, After(s, picks[..k]), |s.waiting|, picks, k);
    }
  }

  lemma RunPrefix(m: Adjacency, s: Stage, picks: seq<Pick>, k: nat)
    requires IsRun(m, s, picks) && k <= |picks|
    ensures IsRun(m, s, picks[..k])
  {
    hide Candidate, After;
    var init := picks[..k];
    forall j | 0 <= j < |init|
      ensures Candidate(m, After(s, init[..j]), init[j])
    {
      assert init[..j] == picks[..j] && init[j] == picks[j];
    }
  }

  lemma GreedyIsRun(m: Adjacency, s: Stage, score: (nat, nat, nat) -> real, spare: nat, picks: seq<Pick>)
    requires Greedy(m, s, score, spare, picks)
    ensures IsRun(m, s, picks) && (spare == 0 ==> Ended(m, After(s, picks)))
  {
    hide Joins;
    forall k | 0 <= k < |picks|
      ensures Candidate(m, After(s, picks[..k]), picks[k])
    {
      assert Chosen(m, After(s, picks[..k]), score, spare, picks[k]);
    }
  }

  lemma GreedyPick(m: Adjacency, s: Stage, score: (nat, nat, nat) -> real,
                   spare: nat, picks: seq<Pick>, init: seq<Pick>)
    requires Greedy(m, s, score, spare, picks) && init <= picks
    ensures var t := After(s, init);
            if init == picks then forall p :: !Chosen(m, t, score, spare, p)
            else Chosen(m, t, score, spare, picks[|init|])
  {
    hide Candidate, After;
    assert picks[..|init|] == init;
  }

  lemma BestUnique(m: Adjacency, s: Stage, score: (nat, nat) -> real, p: Pick, q: Pick)
    requires IsBest(m, s, score, p) && IsBest(m, s, score, q)
    ensures p == q
  {
    hide Joins;
    assert !Before(p, q) && !Before(q, p);
  }

  /** The scores decide every pick. */
  lemma {:induction false} GreedyUnique(m: Adjacency, s: Stage, score: (nat, nat, nat) -> real,
                                        a: seq<Pick>, b: seq<Pick>, spare: nat, k: nat)
    requires Greedy(m, s, score, spare, a) && Greedy(m, s, score, spare, b) && k <= |a| && a[..k] <= b
    ensures a == b
    decreases |a| - k
  {
    hide Greedy, IsBest, After;
    var t := After(s, a[..k]);
    GreedyPick(m, s, score, spare, a, a[..k]);
    GreedyPick(m, s, score, spare, b, a[..k]);
    if k < |a| {
      BestUnique(m, t, OfRound(score, |t.waiting| - spare), a[k], b[k]);
      assert a[..k + 1] == b[..k + 1];
      GreedyUnique(m, s, score, a, b, spare, k + 1);
    }
  }

  // ---------- when the flag does harm ----------

  /** The iterative mode answers right for all scores if and only if the condition holds. */
  lemma StaleFlagExact(m: Adjacency, valid: set<nat>, root: nat, stale: nat)
    requires root in valid
    ensures Harmless(m, valid, root, stale) <==>
              forall score, picks :: NonNegative(score) && Greedy(m, Start(valid, root, stale), score, 0, picks) ==>
                                       Right(m, valid, root, After(Start(valid, root, stale), picks))
  {
    hide Harmless, Right, Greedy, Ended;
    var s := Start(valid, root, stale);
    if Harmless(m, valid, root, stale) {
      forall score, picks | Greedy(m, s, score, 0, picks)
        ensures Right(m, valid, root, After(s, picks))
      {
        GreedyIsRun(m, s, score, 0, picks);
        RunSensible(m, valid, root, stale, picks);
        HarmlessRight(m, valid, root, stale, After(s, picks));
      }
    } else {
      var picks := WrongRun(m, valid, root, stale);
      FavourGreedy(m, s, picks);
      assert NonNegative(Favour(|s.waiting|, picks));
    }
  }

  /** A clear flag is harmless, and so is a flag on a node without links to other nodes of the graph. */
  lemma NoLinkHarmless(m: Adjacency, valid: set<nat>, root: nat, stale: nat)
    requires root in valid
    requires stale == root || forall v :: v in valid - {root, stale} ==> !Joins(m, stale, v)
    ensures Harmless(m, valid, root, stale)
  {
    hide Joins;
    if Back(m, valid, root, stale) {
      var p :| BackAlong(m, valid, root, stale, p);
      FirstStep(m, valid, root, stale, p);
    }
  }

  lemma FirstStep(m: Adjacency, valid: set<nat>, root: nat, stale: nat, p: seq<nat>)
    requires root in valid && BackAlong(m, valid, root, stale, p)
    ensures stale != root && p[1] in valid - {root, stale} && Joins(m, stale, p[1])
  {
    hide Joins;
    assert p[1] in valid - {root} && Joins(m, p[1 - 1], p[1]);
  }

  /** Nodes 2 and 3 link to each other alone; the gateway is node 1. */
  const ISLAND: Adjacency := [[], [], [Link(3, 1.0, 0, 0, 0, 0)], [Link(2, 1.0, 0, 0, 0, 0)]]

  lemma IslandJoins(u: nat, v: nat)
    ensures Joins(ISLAND, u, v) <==> (u == 2 && v == 3) || (u == 3 && v == 2)
  {
    if u < |ISLAND| && ISLAND[u] != [] {
      assert ISLAND[u][1..] == [];
    }
  }

  /** The first pick can only be node 2, the second only node 3. */
  lemma IslandPicks(p: Pick)
    ensures var s := Start({1, 2, 3}, 1, 3);
            && (Candidate(ISLAND, s, p) <==> p == Pick(2, 3))
            && (Candidate(ISLAND, Next(s, Pick(2, 3)), p) <==> p == Pick(3, 2))
            && !Candidate(ISLAND, Next(Next(s, Pick(2, 3)), Pick(3, 2)), p)
  {
    hide Joins;
    IslandJoins(p.attachPoint, p.node);
  }

  /**
   * With node 3's flag left over from an earlier call, whatever the scores, the result is a cycle that no link from the
   * gateway enters, where NULL is owed.
   */
  lemma StaleFlagCycle(score: (nat, nat, nat) -> real, picks: seq<Pick>)
    requires Greedy(ISLAND, Start({1, 2, 3}, 1, 3), score, 0, picks)
    ensures After(Start({1, 2, 3}, 1, 3), picks).waiting == {}
    ensures After(Start({1, 2, 3}, 1, 3), picks).parent == map[2 := 3, 3 := 2]
    ensures !Reachable(ISLAND, {1, 2, 3}, 1, 2) && !Right(ISLAND, {1, 2, 3}, 1, After(Start({1, 2, 3}, 1, 3), picks))
  {
    hide Candidate, Reachable;
    var s, p, q := Start({1, 2, 3}, 1, 3), Pick(2, 3), Pick(3, 2);
    GreedyIsRun(ISLAND, s, score, 0, picks);
    forall r: Pick
      ensures Candidate(ISLAND, s, r) <==> r == p
      ensures Candidate(ISLAND, Next(s, p), r) <==> r == q
      ensures !Candidate(ISLAND, Next(Next(s, p), q), r)
    {
      IslandPicks(r);
    }
    IslandRun(s, p, q, picks);
    Unreached();
  }

  lemma IslandRun(s: Stage, p: Pick, q: Pick, picks: seq<Pick>)
    requires IsRun(ISLAND, s, picks) && Ended(ISLAND, After(s, picks))
    requires forall r :: Candidate(ISLAND, s, r) <==> r == p
    requires forall r :: Candidate(ISLAND, Next(s, p), r) <==> r == q
    requires forall r :: !Candidate(ISLAND, Next(Next(s, p), q), r)
    ensures picks == [p, q] && After(s, picks) == Next(Next(s, p), q)
  {
    hide Candidate, Next;
    assert Candidate(ISLAND, s, p) && Candidate(ISLAND, Next(s, p), q);
    assert After(s, []) == s && picks != [];
    assert picks[..0] == [] && picks[0] == p;
    assert [p][..0] == [] && After(s, [p]) == Next(s, p) && picks != [p];
    assert picks[..1] == [p] && picks[1] == q;
    assert [p, q][..1] == [p] && After(s, [p, q]) == Next(Next(s, p), q) && picks[..2] == [p, q];
  }

  lemma Unreached()
    ensures !Reachable(ISLAND, {1, 2, 3}, 1, 2)
  {
    hide Joins;
    if Reachable(ISLAND, {1, 2, 3}, 1, 2) {
      var p :| Leads(ISLAND, {1, 2, 3}, p, 1, 2);
      assert Joins(ISLAND, p[1 - 1], p[1]);
      IslandJoins(1, p[1]);
    }
  }

  // ---------- a gateway that is not valid ----------

  /** Whatever the loop returns, a node still waits: if it is a tree, it misses a node. */
  lemma InvalidGatewayMisses(m: Adjacency, valid: set<nat>, root: nat, stale: nat,
                             score: (nat, nat, nat) -> real, picks: seq<Pick>)
    requires root !in valid && valid != {} && Greedy(m, Start(valid, root, stale), score, 1, picks)
    ensures var s := After(Start(valid, root, stale), picks); s.waiting != {} && !Spans(m, valid, root, s.parent)
  {
    hide IsBest, Hangs, Joins;
    var start := Start(valid, root, stale);
    GreedyIsRun(m, start, score, 1, picks);
    RunSensible(m, valid, root, stale, picks);
    if picks == [] {
      assert valid - {root} == valid;
    } else {
      var k := |picks| - 1;
      assert Chosen(m, After(start, picks[..k]), score, 1, picks[k]);
      WaitingLeft(m, start, picks);
      RunPrefix(m, start, picks, k);
      WaitingLeft(m, start, picks[..k]);
    }
  }

  /**
   * The loop returns a tree, which is then wrong, if and only if all valid nodes but one, at least, are within reach.
   * The flag of the last node is clear here.
   */
  lemma InvalidGatewayWrongIff(m: Adjacency, valid: set<nat>, root: nat,
                               score: (nat, nat, nat) -> real, picks: seq<Pick>)
    requires root !in valid && valid != {} && Greedy(m, Start(valid, root, root), score, 1, picks)
    ensures |After(Start(valid, root, root), picks).waiting| <= 1 <==>
              |set v | v in valid && Reachable(m, valid, root, v)| >= |valid| - 1
  {
    hide Reachable, Hangs, Joins, IsBest, Ended, Greedy, After;
    var s, near := After(Start(valid, root, root), picks), set v | v in valid && Reachable(m, valid, root, v);
    GreedyIsRun(m, Start(valid, root, root), score, 1, picks);
    RunSensible(m, valid, root, root, picks);
    assert valid - {root} == valid;
    AttachedNear(m, valid, root, s, near);
    if |s.waiting| > 1 {
      GreedyStops(m, Start(valid, root, root), score, picks);
      OutOfReach(m, valid, root, root, s, root);
      Sizes(near, s.parent.Keys);
    } else {
      Sizes(s.parent.Keys, near);
    }
    SplitSizes(valid, s.waiting);
  }

  lemma GreedyStops(m: Adjacency, s: Stage, score: (nat, nat, nat) -> real, picks: seq<Pick>)
    requires Greedy(m, s, score, 1, picks) && |After(s, picks).waiting| > 1
    ensures Ended(m, After(s, picks))
  {
  }

  lemma AttachedNear(m: Adjacency, valid: set<nat>, root: nat, s: Stage, near: set<nat>)
    requires Sensible(m, valid, root, root, s) && root !in valid
    requires near == set v | v in valid && Reachable(m, valid, root, v)
    ensures s.parent.Keys <= near
  {
    hide Reachable, Hangs, Joins;
    forall v | v in s.parent.Keys
      ensures v in near
    {
      HangsReachable(m, valid, root, root, s, root, v);
    }
  }

  lemma Sizes(a: set<nat>, b: set<nat>)
    requires a <= b
    ensures |a| <= |b|
  {
    assert |b| == |a| + |b - a| by {
      assert b == a + (b - a);
    }
  }

  lemma SplitSizes(a: set<nat>, b: set<nat>)
    requires b <= a
    ensures |a - b| == |a| - |b|
  {
    assert a == b + (a - b);
  }

  /**
   * A gateway without links and one valid node: the loop never runs, and the bare tree is returned where NULL is owed.
   */
  lemma LoneNode(score: (nat, nat, nat) -> real, picks: seq<Pick>)
    requires Greedy([[], [], []], Start({2}, 1, 1), score, 1, picks)
    ensures picks == [] && After(Start({2}, 1, 1), picks).waiting == {2} && !Reachable([[], [], []], {2}, 1, 2)
  {
    hide Greedy, After, Joins;
    var m: Adjacency := [[], [], []];
    GreedyIsRun(m, Start({2}, 1, 1), score, 1, picks);
    InvalidGatewayMisses(m, {2}, 1, 1, score, picks);
    WaitingLeft(m, Start({2}, 1, 1), picks);
    assert {2} - {1} == {2};
    NothingYet(Start({2}, 1, 1));
    if Reachable(m, {2}, 1, 2) {
      var p :| Leads(m, {2}, p, 1, 2);
      FirstLink(m, {2}, p, 1, 2);
      NoLink(p[1]);
    }
  }

  lemma NothingYet(s: Stage)
    ensures After(s, []) == s
  {
  }

  lemma FirstLink(m: Adjacency, through: set<nat>, p: seq<nat>, a: nat, v: nat)
    requires Leads(m, through, p, a, v) && a != v
    ensures |p| > 1 && Joins(m, a, p[1])
  {
    assert Joins(m, p[1 - 1], p[1]);
  }

  lemma NoLink(v: nat)
    ensures !Joins([[], [], []], 1, v)
  {
  }
}
