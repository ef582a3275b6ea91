/** The sites of a body by its children: those in each child that runs, from left to right, and a block's own
    after those inside it; and what the planner refuses for, over every child. */
module SiteOrder {
  import opened Transport
  import opened Closures
  import opened Planner
  import opened ReachOrder

  /** The sites one child adds. */
  function SitesAt(node: Node, at: nat, required: seq<string>): seq<Site>
    requires at < |Children(node)|
  {
    if RunsAt(node, at) then SitesOf(Children(node)[at], required) else []
  }

  /** The sites of the children before `n`, one after another. */
  function SitesBefore(node: Node, n: nat, required: seq<string>): seq<Site>
    requires n <= |Children(node)|
  {
    if n == 0 then [] else SitesBefore(node, n - 1, required) + SitesAt(node, n - 1, required)
  }

  lemma OneMoreSite(node: Node, n: nat, required: seq<string>)
    requires n < |Children(node)|
    ensures SitesBefore(node, n + 1, required) == SitesBefore(node, n, required) + SitesAt(node, n, required)
  {
  }

  /** Nodes in a row of children, all of them running. */
  lemma {:induction false} RowSites(node: Node, from: nat, nodes: seq<Node>, n: nat, required: seq<string>)
    requires n <= |nodes| && from + |nodes| <= |Children(node)| && Children(node)[from..from + |nodes|] == nodes
    requires forall i :: from <= i < from + |nodes| ==> RunsAt(node, i)
    ensures SitesBefore(node, from + n, required) == SitesBefore(node, from, required) + SitesOfAll(nodes[..n], required)
  {
    hide SitesOf, Children, RunsAt;
    if n > 0 {
      RowSites(node, from, nodes, n - 1, required);
      OneMoreSite(node, from + n - 1, required);
      assert Children(node)[from + n - 1] == nodes[n - 1];
      assert nodes[..n][..n - 1] == nodes[..n - 1];
    }
  }

  lemma RowOfSites(node: Node, from: nat, nodes: seq<Node>, required: seq<string>)
    requires from + |nodes| <= |Children(node)| && Children(node)[from..from + |nodes|] == nodes
    requires forall i :: from <= i < from + |nodes| ==> RunsAt(node, i)
    ensures SitesBefore(node, from + |nodes|, required) == SitesBefore(node, from, required) + SitesOfAll(nodes, required)
  {
    hide SitesOf, SitesOfAll, SitesBefore, Children, RunsAt;
    RowSites(node, from, nodes, |nodes|, required);
    assert nodes[..|nodes|] == nodes;
  }

  lemma ArgumentSite(node: Node, i: nat, required: seq<string>)
    requires node.Call? && i < |node.arguments|
    ensures |Children(node)| == |node.arguments|
    ensures SitesAt(node, i, required) == if NeverApplied(node.reaches, node.arguments[i]) then [] else SitesOf(node.arguments[i], required)
  {
    hide SitesOf;
  }

  lemma {:induction false} ArgumentsSites(node: Node, n: nat, required: seq<string>)
    requires node.Call? && n <= |node.arguments|
    ensures SitesBefore(node, n, required) == ArgumentSites(node.reaches, node.arguments[..n], required)
  {
    hide SitesOf, Children, RunsAt, SitesAt;
    if n > 0 {
      ArgumentsSites(node, n - 1, required);
      ArgumentSite(node, n - 1, required);
      OneMoreSite(node, n - 1, required);
      assert node.arguments[..n][..n - 1] == node.arguments[..n - 1];
    }
  }

  lemma ArmSite(node: Node, i: nat, required: seq<string>)
    requires node.Match? && i < |node.arms|
    ensures |Children(node)| == |node.arms| + 1
    ensures SitesAt(node, i + 1, required) == if NeverEntered(node.arms[i], node.subject.ty) then [] else SitesOf(node.arms[i].body, required)
  {
    hide SitesOf;
    assert Children(node)[i + 1] == node.arms[i].body;
  }

  lemma SubjectSite(node: Node, required: seq<string>)
    requires node.Match?
    ensures |Children(node)| == |node.arms| + 1 && SitesAt(node, 0, required) == SitesOf(node.subject, required)
  {
    hide SitesOf;
  }

  lemma {:induction false} ArmsSites(node: Node, n: nat, required: seq<string>)
    requires node.Match? && n <= |node.arms|
    ensures SitesBefore(node, n + 1, required) == SitesOf(node.subject, required) + ArmSites(node.arms[..n], node.subject.ty, required)
  {
    hide SitesOf, Children, RunsAt, SitesAt;
    SubjectSite(node, required);
    if n == 0 {
      OneMoreSite(node, 0, required);
    } else {
      ArmsSites(node, n - 1, required);
      ArmSite(node, n - 1, required);
      OneMoreSite(node, n, required);
      assert node.arms[..n][..n - 1] == node.arms[..n - 1];
    }
  }

  lemma DepartureSite(node: Node, i: nat, required: seq<string>)
    requires node.Attempt? && i < |node.departures|
    ensures |Children(node)| == |node.values| + 1 + |node.departures|
    ensures SitesAt(node, |node.values| + 1 + i, required) == SitesOf(node.departures[i].body, required)
  {
    hide SitesOf;
    assert Children(node)[|node.values| + 1 + i] == node.departures[i].body;
  }

  lemma BuiltSite(node: Node, required: seq<string>)
    requires node.Attempt?
    ensures |Children(node)| == |node.values| + 1 + |node.departures|
    ensures SitesAt(node, |node.values|, required) == SitesOf(node.built, required)
    ensures Children(node)[0..|node.values|] == node.values
  {
    hide SitesOf;
    assert Children(node)[|node.values|] == node.built;
  }

  lemma {:induction false} DeparturesSites(node: Node, n: nat, required: seq<string>)
    requires node.Attempt? && n <= |node.departures|
    ensures SitesBefore(node, |node.values| + 1 + n, required)
         == SitesOfAll(node.values, required) + SitesOf(node.built, required) + DepartureSites(node.departures[..n], required)
  {
    hide SitesOf, SitesOfAll, Children, SitesAt;
    var m := |node.values|;
    BuiltSite(node, required);
    if n == 0 {
      RowOfSites(node, 0, node.values, required);
      OneMoreSite(node, m, required);
    } else {
      DeparturesSites(node, n - 1, required);
      DepartureSite(node, n - 1, required);
      OneMoreSite(node, m + n, required);
      assert node.departures[..n][..n - 1] == node.departures[..n - 1];
    }
  }

  lemma AroundSite(node: Node, i: nat, required: seq<string>)
    requires node.Walk? && i < |node.around|
    ensures |Children(node)| == |node.around| + 3
    ensures SitesAt(node, i, required) == if NeverRuns(node.takes) then [] else SitesOf(node.around[i].value, required)
  {
    hide SitesOf;
    assert Children(node)[i] == node.around[i].value;
  }

  lemma {:induction false} AroundsSites(node: Node, n: nat, required: seq<string>)
    requires node.Walk? && n <= |node.around|
    ensures SitesBefore(node, n, required) == if NeverRuns(node.takes) then [] else AroundSites(node.around[..n], required)
  {
    hide SitesOf, Children, RunsAt, SitesAt;
    if n > 0 {
      AroundsSites(node, n - 1, required);
      AroundSite(node, n - 1, required);
      OneMoreSite(node, n - 1, required);
      AroundSitesLast(node.around[..n], required);
      assert node.around[..n][..n - 1] == node.around[..n - 1];
      hide AroundSites, SitesBefore;
    }
  }

  lemma {:induction false} AroundSitesLast(around: seq<Around>, required: seq<string>)
    requires around != []
    ensures AroundSites(around, required)
         == AroundSites(around[..|around| - 1], required) + SitesOf(around[|around| - 1].value, required)
  {
    hide SitesOf;
    if |around| > 1 {
      AroundSitesLast(around[1..], required);
      assert around[1..][..|around| - 2] == around[..|around| - 1][1..];
    }
  }

  lemma StepSites(node: Node, required: seq<string>)
    requires node.Walk?
    ensures |Children(node)| == |node.around| + 3
    ensures SitesAt(node, |node.around|, required) == if NeverRuns(node.takes) then [] else SitesOf(node.body, required)
    ensures SitesAt(node, |node.around| + 1, required) == SitesOf(node.walked, required)
    ensures SitesAt(node, |node.around| + 2, required) == SitesOf(node.from, required)
  {
    hide SitesOf;
    var n := |node.around|;
    assert Children(node)[n] == node.body && Children(node)[n + 1] == node.walked && Children(node)[n + 2] == node.from;
  }

  lemma WalkSitesAre(node: Node, required: seq<string>)
    requires node.Walk?
    ensures SitesOf(node, required)
         == (if NeverRuns(node.takes) then [] else AroundSites(node.around, required) + SitesOf(node.body, required))
            + SitesOf(node.walked, required) + SitesOf(node.from, required)
  {
  }

  lemma WalkSites(node: Node, required: seq<string>)
    requires node.Walk?
    ensures SitesOf(node, required) == SitesBefore(node, |Children(node)|, required)
  {
    hide SitesOf, SitesAt, SitesBefore, Children, AroundSites;
    WalkSitesAre(node, required);
    var n := |node.around|;
    StepSites(node, required);
    AroundsSites(node, n, required);
    assert node.around[..n] == node.around;
    OneMoreSite(node, n, required);
    OneMoreSite(node, n + 1, required);
    OneMoreSite(node, n + 2, required);
  }

  lemma MatchSitesAre(node: Node, required: seq<string>)
    requires node.Match?
    ensures |Children(node)| == |node.arms| + 1
    ensures SitesOf(node, required) == SitesOf(node.subject, required) + ArmSites(node.arms, node.subject.ty, required)
  {
  }

  lemma MatchSites(node: Node, required: seq<string>)
    requires node.Match?
    ensures SitesOf(node, required) == SitesBefore(node, |Children(node)|, required)
  {
    hide SitesOf, SitesBefore, Children, ArmSites;
    MatchSitesAre(node, required);
    ArmsSites(node, |node.arms|, required);
    assert node.arms[..|node.arms|] == node.arms;
  }

  lemma AttemptSitesAre(node: Node, required: seq<string>)
    requires node.Attempt?
    ensures |Children(node)| == |node.values| + 1 + |node.departures|
    ensures SitesOf(node, required)
         == SitesOfAll(node.values, required) + SitesOf(node.built, required) + DepartureSites(node.departures, required)
  {
  }

  lemma AttemptSites(node: Node, required: seq<string>)
    requires node.Attempt?
    ensures SitesOf(node, required) == SitesBefore(node, |Children(node)|, required)
  {
    hide SitesOf, SitesOfAll, SitesBefore, Children, DepartureSites;
    AttemptSitesAre(node, required);
    DeparturesSites(node, |node.departures|, required);
    assert node.departures[..|node.departures|] == node.departures;
  }

  lemma CallSites(node: Node, required: seq<string>)
    requires node.Call?
    ensures SitesOf(node, required) == SitesBefore(node, |Children(node)|, required)
  {
    hide SitesBefore;
    ArgumentsSites(node, |node.arguments|, required);
    assert node.arguments[..|node.arguments|] == node.arguments;
  }

  lemma ApplySitesAre(node: Node, required: seq<string>)
    requires node.Apply?
    ensures |Children(node)| == |node.arguments| + 1 && Children(node)[1..1 + |node.arguments|] == node.arguments
    ensures SitesOf(node, required) == SitesOf(node.applied, required) + SitesOfAll(node.arguments, required)
    ensures SitesBefore(node, 1, required) == SitesOf(node.applied, required)
  {
    OneMoreSite(node, 0, required);
  }

  lemma ApplySites(node: Node, required: seq<string>)
    requires node.Apply?
    ensures SitesOf(node, required) == SitesBefore(node, |Children(node)|, required)
  {
    ApplySitesAre(node, required);
    hide SitesOf, SitesBefore, SitesOfAll;
    RowOfSites(node, 1, node.arguments, required);
  }

  lemma RowSitesAre(node: Node, nodes: seq<Node>, required: seq<string>)
    requires (node.Construct? && nodes == node.values) || (node.TupleNode? && nodes == node.nodes) || (node.ListNode? && nodes == node.nodes)
    ensures SitesOf(node, required) == SitesOfAll(nodes, required) && Children(node) == nodes
  {
  }

  lemma RowNodeSites(node: Node, nodes: seq<Node>, required: seq<string>)
    requires (node.Construct? && nodes == node.values) || (node.TupleNode? && nodes == node.nodes) || (node.ListNode? && nodes == node.nodes)
    ensures SitesOf(node, required) == SitesBefore(node, |Children(node)|, required)
  {
    hide SitesOf, SitesOfAll;
    RowSitesAre(node, nodes, required);
    assert Children(node)[0..0 + |nodes|] == nodes;
    RowOfSites(node, 0, nodes, required);
  }

  lemma FirstSites(node: Node, required: seq<string>)
    requires Children(node) != []
    ensures SitesBefore(node, 1, required) == SitesAt(node, 0, required)
    ensures |Children(node)| > 1 ==> SitesBefore(node, 2, required) == SitesAt(node, 0, required) + SitesAt(node, 1, required)
    ensures |Children(node)| > 2 ==>
      SitesBefore(node, 3, required) == SitesAt(node, 0, required) + SitesAt(node, 1, required) + SitesAt(node, 2, required)
  {
    hide Children, SitesAt;
    OneMoreSite(node, 0, required);
    if |Children(node)| > 1 { OneMoreSite(node, 1, required); }
    if |Children(node)| > 2 { OneMoreSite(node, 2, required); }
  }

  lemma FewSites(node: Node, required: seq<string>)
    requires node.FieldOf? || node.Let? || node.If? || node.PresentNode? || node.Member? || node.Widen? || node.Block?
    ensures SitesOf(node, required)
         == SitesBefore(node, |Children(node)|, required) + if node.Block? then [PlanOf(node, required)] else []
  {
    hide SitesBefore, PlanOf;
    FirstSites(node, required);
  }

  /** A node's sites are those of its running children, from left to right, and a block's own plan comes after
      them, run or not. */
  lemma SitesByChildren(node: Node, required: seq<string>)
    ensures SitesOf(node, required)
         == SitesBefore(node, |Children(node)|, required) + if node.Block? then [PlanOf(node, required)] else []
  {
    match node
    case Construct(_, values, _) => RowNodeSites(node, values, required);
    case TupleNode(nodes, _) => RowNodeSites(node, nodes, required);
    case ListNode(nodes, _) => RowNodeSites(node, nodes, required);
    case Attempt(_, _, _, _, _, _, _) => AttemptSites(node, required);
    case Match(_, _, _) => MatchSites(node, required);
    case Call(_, _, _) => CallSites(node, required);
    case Walk(_, _, _, _, _, _, _, _, _, _) => WalkSites(node, required);
    case Apply(_, _, _) => ApplySites(node, required);
    case FieldOf(_, _, _) => FewSites(node, required);
    case Let(_, _, _, _, _) => FewSites(node, required);
    case If(_, _, _, _) => FewSites(node, required);
    case PresentNode(_, _) => FewSites(node, required);
    case Member(_, _, _) => FewSites(node, required);
    case Block(_, _, _, _) => FewSites(node, required);
    case Widen(_, _) => FewSites(node, required);
    case _ =>
  }

  lemma BlocksInChild(node: Node, i: nat)
    requires BlocksAreFunctions(node) && i < |Children(node)|
    ensures BlocksAreFunctions(Children(node)[i])
  {
    match node
    case Attempt(_, values, _, _, _, departures, _) =>
      if i < |values| { assert values[i] == Children(node)[i]; }
      if i > |values| { assert departures[i - |values| - 1].body == Children(node)[i]; }
    case Match(_, arms, _) => if i > 0 { assert arms[i - 1].body == Children(node)[i]; }
    case Walk(_, around, _, _, _, _, _, _, _, _) => if i < |around| { assert around[i].value == Children(node)[i]; }
    case Apply(_, arguments, _) => if i > 0 { assert arguments[i - 1] == Children(node)[i]; }
    case _ =>
  }

  lemma BlocksInAttempt(node: Node)
    requires node.Attempt? && forall i :: 0 <= i < |Children(node)| ==> BlocksAreFunctions(Children(node)[i])
    ensures BlocksAreFunctions(node)
  {
    var n := |node.values|;
    assert Children(node)[n] == node.built;
    forall i | 0 <= i < n ensures BlocksAreFunctions(node.values[i]) { assert Children(node)[i] == node.values[i]; }
    forall i | 0 <= i < |node.departures| ensures BlocksAreFunctions(node.departures[i].body) {
      assert Children(node)[n + 1 + i] == node.departures[i].body;
    }
  }

  lemma BlocksInMatch(node: Node)
    requires node.Match? && forall i :: 0 <= i < |Children(node)| ==> BlocksAreFunctions(Children(node)[i])
    ensures BlocksAreFunctions(node)
  {
    assert Children(node)[0] == node.subject;
    forall i | 0 <= i < |node.arms| ensures BlocksAreFunctions(node.arms[i].body) { assert Children(node)[i + 1] == node.arms[i].body; }
  }

  lemma BlocksInWalk(node: Node)
    requires node.Walk? && forall i :: 0 <= i < |Children(node)| ==> BlocksAreFunctions(Children(node)[i])
    ensures BlocksAreFunctions(node)
  {
    var n := |node.around|;
    assert Children(node)[n] == node.body && Children(node)[n + 1] == node.walked && Children(node)[n + 2] == node.from;
    forall i | 0 <= i < n ensures BlocksAreFunctions(node.around[i].value) { assert Children(node)[i] == node.around[i].value; }
  }

  lemma BlocksInApply(node: Node)
    requires node.Apply? && forall i :: 0 <= i < |Children(node)| ==> BlocksAreFunctions(Children(node)[i])
    ensures BlocksAreFunctions(node)
  {
    assert Children(node)[0] == node.applied;
    forall i | 0 <= i < |node.arguments| ensures BlocksAreFunctions(node.arguments[i]) { assert Children(node)[i + 1] == node.arguments[i]; }
  }

  lemma BlocksInRow(node: Node, nodes: seq<Node>)
    requires (node.Construct? && nodes == node.values) || (node.TupleNode? && nodes == node.nodes)
          || (node.ListNode? && nodes == node.nodes) || (node.Call? && nodes == node.arguments)
    requires forall i :: 0 <= i < |Children(node)| ==> BlocksAreFunctions(Children(node)[i])
    ensures BlocksAreFunctions(node)
  {
    assert Children(node) == nodes;
  }

  lemma BlocksInFew(node: Node)
    requires node.FieldOf? || node.Let? || node.If? || node.PresentNode? || node.Member? || node.Widen? || node.Block?
    requires (node.Block? ==> node.ty.Fn?) && forall i :: 0 <= i < |Children(node)| ==> BlocksAreFunctions(Children(node)[i])
    ensures BlocksAreFunctions(node)
  {
    assert BlocksAreFunctions(Children(node)[0]);
    if |Children(node)| > 1 { assert BlocksAreFunctions(Children(node)[1]); }
    if |Children(node)| > 2 { assert BlocksAreFunctions(Children(node)[2]); }
  }

  /** What the planner refuses for is a block not typed as a function, anywhere in the body, run or not. */
  lemma BlocksByChildren(node: Node)
    ensures BlocksAreFunctions(node) <==>
      (node.Block? ==> node.ty.Fn?) && forall i :: 0 <= i < |Children(node)| ==> BlocksAreFunctions(Children(node)[i])
  {
    if BlocksAreFunctions(node) {
      forall i | 0 <= i < |Children(node)| ensures BlocksAreFunctions(Children(node)[i]) { BlocksInChild(node, i); }
    }
    if (node.Block? ==> node.ty.Fn?) && forall i :: 0 <= i < |Children(node)| ==> BlocksAreFunctions(Children(node)[i]) {
      match node
      case Attempt(_, _, _, _, _, _, _) => BlocksInAttempt(node);
      case Match(_, _, _) => BlocksInMatch(node);
      case Walk(_, _, _, _, _, _, _, _, _, _) => BlocksInWalk(node);
      case Apply(_, _, _) => BlocksInApply(node);
      case Construct(_, values, _) => BlocksInRow(node, values);
      case TupleNode(nodes, _) => BlocksInRow(node, nodes);
      case ListNode(nodes, _) => BlocksInRow(node, nodes);
      case Call(_, arguments, _) => BlocksInRow(node, arguments);
      case FieldOf(_, _, _) => BlocksInFew(node);
      case Let(_, _, _, _, _) => BlocksInFew(node);
      case If(_, _, _, _) => BlocksInFew(node);
      case PresentNode(_, _) => BlocksInFew(node);
      case Member(_, _, _) => BlocksInFew(node);
      case Block(_, _, _, _) => BlocksInFew(node);
      case Widen(_, _) => BlocksInFew(node);
      case _ =>
    }
  }
}
