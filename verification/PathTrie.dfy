/** The path-segment trie: insertion, discriminator building, plan counting and the lookup walk. */
module PathTrie {
  import opened Text
  import opened RouteIr
  import opened Matching
  import opened Discriminators

  /** A node with more plans than this gets a discriminator. */
  const DISCRIMINATOR_THRESHOLD := 8

  class TrieNode {
    var children: map<string, TrieNode>
    var prefixPlans: seq<Plan>
    var exactPlans: seq<Plan>
    var discriminator: Option<Discriminator>
    /** The segments that lead from the root to this node. */
    ghost const path: seq<string>

    ghost predicate IsEmpty()
      reads this
    {
      prefixPlans == [] && exactPlans == [] && discriminator == None
    }

    /** A crowded node has a discriminator over its plans; any other node has none. */
    ghost predicate SplitWhenCrowded()
      reads this
    {
      var plans := prefixPlans + exactPlans;
      if |plans| > DISCRIMINATOR_THRESHOLD
      then discriminator.Some? && Splits(discriminator.value, plans) && MostUsed(discriminator.value.attribute, plans)
      else discriminator.None?
    }

    constructor (ghost path: seq<string>)
      ensures this.path == path && children == map[] && IsEmpty()
    {
      this.path := path;
      children := map[];
      prefixPlans := [];
      exactPlans := [];
      discriminator := None;
    }
  }

  function Child(p: seq<string>, s: string): (q: seq<string>)
    ensures |q| == |p| + 1 && q[..|p|] == p && q[|p|] == s
  {
    p + [s]
  }

  predicate IsBelow(q: seq<string>, p: seq<string>) {
    |q| < |p| && q == p[..|q|]
  }

  predicate HasExactPath(m: RequestMatch) {
    m.path.Some? && m.path.value.PathExact?
  }

  /** The node a plan is stored at; a match without a path lives at the root. */
  function TrieKey(m: RequestMatch): seq<string> {
    if m.path.Some? then Segments(m.path.value.path) else []
  }

  /** The place of one plan in the trie: its node and its position there. */
  datatype Seat = Seat(path: seq<string>, index: int)

  class Trie {
    const root: TrieNode
    /** The node reached by every existing segment path. */
    ghost var at: map<seq<string>, TrieNode>

    ghost predicate Valid()
      reads this`at, at.Values`children
    {
      && [] in at && at[[]] == root
      && (forall p | p in at :: at[p].path == p)
      && (forall p, s | p in at && s in at[p].children :: Child(p, s) in at && at[Child(p, s)] == at[p].children[s])
      && (forall p, s | Child(p, s) in at :: p in at && s in at[p].children)
    }

    /** No node has a discriminator yet. */
    ghost predicate Unsplit()
      reads this`at, at.Values`discriminator
    {
      forall p | p in at :: at[p].discriminator == None
    }

    ghost function PrefixAt(p: seq<string>): seq<Plan>
      reads this`at, at.Values`prefixPlans
    {
      if p in at then at[p].prefixPlans else []
    }

    ghost function ExactAt(p: seq<string>): seq<Plan>
      reads this`at, at.Values`exactPlans
    {
      if p in at then at[p].exactPlans else []
    }

    constructor ()
      ensures Valid() && fresh(at.Values)
      ensures forall p :: PrefixAt(p) == [] && ExactAt(p) == []
      ensures Unsplit()
    {
      root := new TrieNode([]);
      at := map[[] := root];
    }

    /** Paths created since `before` lead to new empty nodes; the others lead where they did. */
    twostate predicate OnlyAddsEmptyNodes(before: map<seq<string>, TrieNode>)
      reads this, at.Values
    {
      && (forall p | p in before :: p in at && at[p] == before[p])
      && (forall p | p in at && p !in before :: fresh(at[p]) && at[p].IsEmpty())
    }

    /** `walk_or_create`: the node at the end of `segments`, with empty nodes added on the way. */
    method WalkOrCreate(segments: seq<string>) returns (node: TrieNode)
      requires Valid()
      modifies this`at, at.Values`children
      ensures Valid() && OnlyAddsEmptyNodes(old(at))
      ensures segments in at && at[segments] == node
    {
      node := root;
      for k := 0 to |segments|
        invariant Valid() && OnlyAddsEmptyNodes(old(at))
        invariant segments[..k] in at && at[segments[..k]] == node
      {
        node := Step(node, segments[..k], segments[k]);
        assert Child(segments[..k], segments[k]) == segments[..k + 1];
      }
      assert segments[..|segments|] == segments;
    }

    /** One turn of the walk: follow the segment, or create an empty child for it. */
    method Step(node: TrieNode, ghost p: seq<string>, segment: string) returns (child: TrieNode)
      requires Valid() && p in at && at[p] == node
      modifies this`at, node`children
      ensures Valid()
      ensures Child(p, segment) in at && at[Child(p, segment)] == child
      ensures OnlyAddsEmptyNodes(old(at))
    {
      if segment in node.children {
        child := node.children[segment];
      } else {
        child := AddChild(node, p, segment);
      }
    }

    method AddChild(node: TrieNode, ghost p: seq<string>, segment: string) returns (child: TrieNode)
      requires Valid() && p in at && at[p] == node && segment !in node.children
      modifies this`at, node`children
      ensures Valid() && fresh(child) && child.IsEmpty()
      ensures Child(p, segment) !in old(at) && at == old(at)[Child(p, segment) := child]
    {
      child := new TrieNode(Child(p, segment));
      node.children := node.children[segment := child];
      at := at[Child(p, segment) := child];
    }

    /** Walking changes no stored plan. */
    method MakeRoom(segments: seq<string>) returns (node: TrieNode)
      requires Valid() && Unsplit()
      modifies this`at, at.Values`children
      ensures Valid() && Unsplit() && fresh(at.Values - old(at.Values))
      ensures segments in at && at[segments] == node
      ensures forall p :: PrefixAt(p) == old(PrefixAt(p))
      ensures forall p :: ExactAt(p) == old(ExactAt(p))
    {
      node := WalkOrCreate(segments);
    }

    method PushPrefix(node: TrieNode, plan: Plan)
      requires Valid() && node.path in at && at[node.path] == node
      modifies node`prefixPlans
      ensures Valid()
      ensures forall q :: PrefixAt(q) == old(PrefixAt(q)) + if q == node.path then [plan] else []
    {
      node.prefixPlans := node.prefixPlans + [plan];
    }

    method PushExact(node: TrieNode, plan: Plan)
      requires Valid() && node.path in at && at[node.path] == node
      modifies node`exactPlans
      ensures Valid()
      ensures forall q :: ExactAt(q) == old(ExactAt(q)) + if q == node.path then [plan] else []
    {
      node.exactPlans := node.exactPlans + [plan];
    }

    /** `insert_plan_into_trie`, for the plans that are not regex plans. */
    method Place(plan: Plan)
      requires Valid() && Unsplit() && !(plan.matches.path.Some? && plan.matches.path.value.PathRegex?)
      modifies this`at, at.Values
      ensures Valid() && Unsplit() && fresh(at.Values - old(at.Values))
      ensures forall p ::
        PrefixAt(p) == old(PrefixAt(p)) + if p == TrieKey(plan.matches) && !HasExactPath(plan.matches) then [plan] else []
      ensures forall p ::
        ExactAt(p) == old(ExactAt(p)) + if p == TrieKey(plan.matches) && HasExactPath(plan.matches) then [plan] else []
    {
      match plan.matches.path {
        case None =>
          PushPrefix(root, plan);
        case Some(PathPrefix(prefix)) =>
          var node := MakeRoom(Segments(prefix));
          PushPrefix(node, plan);
        case Some(PathExact(exact)) =>
          var node := MakeRoom(Segments(exact));
          PushExact(node, plan);
      }
    }

    /** Every ancestor of an existing node exists. */
    lemma {:induction false} PrefixClosed(q: seq<string>, p: seq<string>)
      requires Valid() && p in at && q <= p
      ensures q in at
      decreases |p|
    {
      if q != p {
        var init := p[..|p| - 1];
        assert p == Child(init, p[|p| - 1]);
        PrefixClosed(q, init);
      }
    }

    /** A proper descendant lies below exactly one child. */
    lemma BelowChild(node: TrieNode, p: seq<string>)
      requires Valid() && node.path in at && at[node.path] == node
      requires p in at && node.path <= p && p != node.path
      ensures p[|node.path|] in node.children && Child(node.path, p[|node.path|]) <= p
    {
      PrefixClosed(Child(node.path, p[|node.path|]), p);
    }

    ghost function Subtree(q: seq<string>): set<seq<string>>
      reads this`at
    {
      set p | p in at && q <= p
    }

    /** The proper descendants of `node` are finished, except below the children in `todo`. */
    ghost predicate DoneExcept(node: TrieNode, todo: set<string>)
      reads this, at.Values
    {
      forall p | p in at && IsBelow(node.path, p) ::
        if p[|node.path|] in todo then at[p].discriminator == None else at[p].SplitWhenCrowded()
    }

    method SplitNode(node: TrieNode)
      requires node.discriminator == None
      modifies node`discriminator
      ensures node.SplitWhenCrowded()
    {
      var plans := node.prefixPlans + node.exactPlans;
      if |plans| > DISCRIMINATOR_THRESHOLD {
        var d := BuildDiscriminator(plans);
        node.discriminator := Some(d);
      }
    }

    lemma SmallerSubtree(node: TrieNode, s: string)
      requires Valid() && node.path in at && at[node.path] == node && s in node.children
      ensures var child := node.children[s];
        && child.path == Child(node.path, s) && child.path in at && at[child.path] == child
        && Subtree(child.path) < Subtree(node.path)
    {
      var child := node.children[s];
      assert child == at[Child(node.path, s)];
      forall p | p in at && child.path <= p ensures node.path <= p {
        assert p[..|node.path|] == child.path[..|node.path|];
      }
      assert node.path !in Subtree(child.path) && node.path in Subtree(node.path);
    }

    /** A child's subtree is untouched while the child is in `todo`. */
    lemma ChildUntouched(node: TrieNode, todo: set<string>, s: string)
      requires Valid() && node.path in at && at[node.path] == node
      requires s in todo && s in node.children && DoneExcept(node, todo)
      ensures var child := node.children[s];
        && child.path == Child(node.path, s) && child.path in at && at[child.path] == child
        && Subtree(child.path) < Subtree(node.path)
        && child.discriminator == None && DoneExcept(child, child.children.Keys)
    {
      SmallerSubtree(node, s);
      var child := node.children[s];
      assert child == at[Child(node.path, s)];
      forall p | p in at && IsBelow(child.path, p)
        ensures at[p].discriminator == None && p[|child.path|] in child.children
      {
        assert IsBelow(node.path, p) && p[|node.path|] == s;
        BelowChild(child, p);
      }
    }

    /** `build_discriminators`: the node itself, then everything below it. */
    method BuildDiscriminators(node: TrieNode)
      requires Valid() && node.path in at && at[node.path] == node
      requires node.discriminator == None && DoneExcept(node, node.children.Keys)
      modifies set p | p in at && (p == node.path || IsBelow(node.path, p)) :: at[p]`discriminator
      ensures Valid()
      ensures node.SplitWhenCrowded() && DoneExcept(node, {})
      decreases Subtree(node.path), 1
    {
      SplitNode(node);
      var todo := node.children.Keys;
      while todo != {}
        invariant todo <= node.children.Keys
        invariant Valid() && node.SplitWhenCrowded() && DoneExcept(node, todo)
      {
        var s :| s in todo;
        BuildChild(node, todo, s);
        todo := todo - {s};
      }
    }

    method BuildChild(node: TrieNode, ghost todo: set<string>, s: string)
      requires Valid() && node.path in at && at[node.path] == node
      requires s in todo && s in node.children && DoneExcept(node, todo)
      modifies set p | p in at && IsBelow(node.path, p) :: at[p]`discriminator
      ensures Valid() && DoneExcept(node, todo - {s})
      decreases Subtree(node.path), 0
    {
      ChildUntouched(node, todo, s);
      var child := node.children[s];
      BuildDiscriminators(child);
      forall p | p in at && IsBelow(node.path, p)
        ensures if p[|node.path|] in todo - {s} then at[p].discriminator == None else at[p].SplitWhenCrowded()
      {
        if p[|node.path|] == s {
          assert p[..|node.path| + 1] == child.path;
          assert p == child.path || IsBelow(child.path, p);
        } else {
          assert !(p == child.path || IsBelow(child.path, p));
          assert at[p].discriminator == old(at[p].discriminator);
        }
      }
    }

    // ---- Counting ----

    ghost function PlanCountAt(p: seq<string>): nat
      reads this`at, at.Values`prefixPlans, at.Values`exactPlans
    {
      |PrefixAt(p)| + |ExactAt(p)|
    }

    /** One slot per plan stored at `q` or below. */
    ghost function Slots(q: seq<string>): set<Seat>
      reads this`at, at.Values`prefixPlans, at.Values`exactPlans
    {
      set p, i | p in at && q <= p && 0 <= i < PlanCountAt(p) :: Seat(p, i)
    }

    ghost function OwnSlots(q: seq<string>, n: nat): set<Seat> {
      set i | 0 <= i < n :: Seat(q, i)
    }

    lemma {:induction false} OwnSlotsCount(q: seq<string>, n: nat)
      ensures |OwnSlots(q, n)| == n
    {
      if n > 0 {
        assert OwnSlots(q, n) == OwnSlots(q, n - 1) + {Seat(q, n - 1)};
        OwnSlotsCount(q, n - 1);
      }
    }

    /** The slots of a node and of its children outside `todo`. */
    ghost function SlotsExcept(node: TrieNode, todo: set<string>): set<Seat>
      reads this`at, at.Values`prefixPlans, at.Values`exactPlans
    {
      set x | x in Slots(node.path) && (x.path == node.path || x.path[|node.path|] !in todo)
    }

    lemma AddChildSlots(node: TrieNode, todo: set<string>, s: string)
      requires Valid() && node.path in at && at[node.path] == node
      requires s in todo && s in node.children
      ensures |SlotsExcept(node, todo - {s})| == |SlotsExcept(node, todo)| + |Slots(Child(node.path, s))|
    {
      var a, b := SlotsExcept(node, todo), Slots(Child(node.path, s));
      assert Child(node.path, s) in at;
      forall x ensures x in SlotsExcept(node, todo - {s}) <==> x in a || x in b {
        if x in Slots(node.path) && x.path != node.path && x.path[|node.path|] == s {
          assert x.path[..|node.path| + 1] == Child(node.path, s);
        }
        if x in b {
          assert x.path[..|node.path|] == Child(node.path, s)[..|node.path|];
        }
      }
      assert SlotsExcept(node, todo - {s}) == a + b;
      assert a !! b;
    }

    method PlaceKeyed(plan: Plan)
      requires Valid() && Unsplit() && Keyed() && !(plan.matches.path.Some? && plan.matches.path.value.PathRegex?)
      modifies this`at, at.Values
      ensures Valid() && Unsplit() && Keyed() && fresh(at.Values - old(at.Values))
      ensures forall p :: Stored(p) <==> old(Stored(p)) || p == plan
      ensures forall p :: PlanCountAt(p) == old(PlanCountAt(p)) + if p == TrieKey(plan.matches) then 1 else 0
    {
      Place(plan);
    }

    /** Placing a plan adds exactly one to the count of stored plans. */
    method Insert(plan: Plan)
      requires Valid() && Unsplit() && Keyed() && !(plan.matches.path.Some? && plan.matches.path.value.PathRegex?)
      modifies this`at, at.Values
      ensures Valid() && Unsplit() && Keyed() && fresh(at.Values - old(at.Values))
      ensures forall p :: Stored(p) <==> old(Stored(p)) || p == plan
      ensures |Slots([])| == old(|Slots([])|) + 1
    {
      ghost var key, n := TrieKey(plan.matches), PlanCountAt(TrieKey(plan.matches));
      ghost var before := Slots([]);
      PlaceKeyed(plan);
      forall x ensures x in Slots([]) <==> x in before || x == Seat(key, n) {
        assert PlanCountAt(x.path) == old(PlanCountAt(x.path)) + if x.path == key then 1 else 0;
      }
      assert Slots([]) == before + {Seat(key, n)};
    }

    /** The unsplit trie of `plans`. */
    ghost predicate Collects(plans: seq<Plan>)
      reads this, at.Values
    {
      && Valid() && Unsplit() && Keyed()
      && (forall p :: Stored(p) <==> p in plans)
      && |Slots([])| == |plans|
    }

    method InsertNext(plan: Plan, ghost before: seq<Plan>)
      requires Collects(before) && !(plan.matches.path.Some? && plan.matches.path.value.PathRegex?)
      modifies this`at, at.Values
      ensures Collects(before + [plan]) && fresh(at.Values - old(at.Values))
    {
      Insert(plan);
    }

    /** `total_plan_count`. */
    method TotalPlanCount(node: TrieNode) returns (n: nat)
      requires Valid() && node.path in at && at[node.path] == node
      ensures n == |Slots(node.path)|
      decreases Subtree(node.path)
    {
      n := |node.prefixPlans| + |node.exactPlans|;
      OwnSlotsCount(node.path, n);
      var todo := node.children.Keys;
      forall x ensures x in SlotsExcept(node, todo) <==> x in OwnSlots(node.path, n) {
        if x in Slots(node.path) && x.path != node.path {
          BelowChild(node, x.path);
        }
      }
      assert SlotsExcept(node, todo) == OwnSlots(node.path, n);
      while todo != {}
        invariant todo <= node.children.Keys
        invariant n == |SlotsExcept(node, todo)|
      {
        var s :| s in todo;
        SmallerSubtree(node, s);
        var c := TotalPlanCount(node.children[s]);
        AddChildSlots(node, todo, s);
        n := n + c;
        todo := todo - {s};
      }
      assert SlotsExcept(node, {}) == Slots(node.path);
    }

    // ---- Walking ----

    ghost predicate Stored(p: Plan)
      reads this`at, at.Values`prefixPlans, at.Values`exactPlans
    {
      p in PrefixAt(TrieKey(p.matches)) || p in ExactAt(TrieKey(p.matches))
    }

    /** Every plan is stored at its own key. */
    ghost predicate Keyed()
      reads this`at, at.Values`prefixPlans, at.Values`exactPlans
    {
      && (forall q, p | p in PrefixAt(q) :: TrieKey(p.matches) == q)
      && (forall q, p | p in ExactAt(q) :: TrieKey(p.matches) == q)
    }

    ghost predicate Split()
      reads this, at.Values
    {
      forall q | q in at :: at[q].SplitWhenCrowded()
    }

    /** The finished trie of these plans. */
    ghost predicate Holds(plans: seq<Plan>)
      reads this, at.Values
    {
      && Valid() && Keyed() && Split()
      && (forall p :: Stored(p) <==> p in plans)
      && |Slots([])| == |plans|
    }

    /** The discriminator of the plan's node, if any, lets the request see the plan. */
    ghost predicate Reachable(p: Plan, req: Request)
      reads this`at, at.Values`discriminator
    {
      var q := TrieKey(p.matches);
      q in at && at[q].discriminator.Some? ==> Visible(at[q].discriminator.value.attribute, p.matches, req)
    }

    /** Building discriminators for the whole trie leaves the stored plans alone. */
    method SplitCrowdedNodes()
      requires Valid() && Unsplit() && Keyed()
      modifies at.Values`discriminator
      ensures Valid() && Split() && Keyed()
      ensures forall p :: Stored(p) <==> old(Stored(p))
      ensures Slots([]) == old(Slots([]))
    {
      forall p | p in at && IsBelow(root.path, p) ensures p[|root.path|] in root.children {
        BelowChild(root, p);
      }
      BuildDiscriminators(root);
      forall q | q in at ensures at[q].SplitWhenCrowded() {
        assert q == root.path || IsBelow(root.path, q);
      }
    }

    /** `resolve_node_plans`. */
    method ResolveNode(node: TrieNode, req: Request) returns (plans: seq<Plan>)
      requires node.path in at && at[node.path] == node && Keyed() && Split()
      ensures forall p :: p in plans <==> TrieKey(p.matches) == node.path && Stored(p) && Reachable(p, req)
    {
      ghost var all := PrefixAt(node.path) + ExactAt(node.path);
      assert forall p :: p in all <==> TrieKey(p.matches) == node.path && Stored(p);
      match node.discriminator {
        case Some(d) =>
          FetchIsVisiblePlans(d, all, req);
          plans := Fetch(d, req);
        case None =>
          plans := node.prefixPlans + node.exactPlans;
      }
    }

    /** Collects the plans of every node along the path, from the root down. */
    method Walk(segments: seq<string>, req: Request) returns (candidates: seq<Plan>)
      requires Valid() && Keyed() && Split()
      ensures forall p :: p in candidates <==> TrieKey(p.matches) <= segments && Stored(p) && Reachable(p, req)
    {
      var node := root;
      candidates := ResolveNode(node, req);
      var k := 0;
      while k < |segments| && segments[k] in node.children
        invariant 0 <= k <= |segments|
        invariant segments[..k] in at && at[segments[..k]] == node
        invariant forall p :: p in candidates <==> TrieKey(p.matches) <= segments[..k] && Stored(p) && Reachable(p, req)
      {
        assert Child(segments[..k], segments[k]) == segments[..k + 1];
        node := node.children[segments[k]];
        var found := ResolveNode(node, req);
        candidates := candidates + found;
        forall p: Plan
          ensures TrieKey(p.matches) <= segments[..k + 1] <==>
                  TrieKey(p.matches) <= segments[..k] || TrieKey(p.matches) == segments[..k + 1]
        {
          OneLonger(TrieKey(p.matches), segments, k);
        }
        k := k + 1;
      }
      forall p: Plan | TrieKey(p.matches) <= segments && Stored(p) ensures TrieKey(p.matches) <= segments[..k] {
        NothingDeeper(TrieKey(p.matches), segments, k);
      }
    }

    lemma NothingDeeper(q: seq<string>, segments: seq<string>, k: nat)
      requires Valid() && q in at && q <= segments && k <= |segments| && segments[..k] in at
      requires k < |segments| ==> segments[k] !in at[segments[..k]].children
      ensures q <= segments[..k]
    {
      if |q| > k {
        assert Child(segments[..k], segments[k]) <= q;
        PrefixClosed(Child(segments[..k], segments[k]), q);
      }
    }
  }

  lemma OneLonger(q: seq<string>, segments: seq<string>, k: nat)
    requires k < |segments|
    ensures q <= segments[..k + 1] <==> q <= segments[..k] || q == segments[..k + 1]
  {
    assert segments[..k + 1][..k] == segments[..k];
  }
}
