// Which contracts recur when they are evaluated, and which of those the reference check of
// contract_admission.py refuses.
module Recursion {
  import opened Options
  import opened Json
  import opened Collecting
  import opened JsonPointer
  import opened Paths
  import opened References
  import opened RuleEngine
  import opened SchemaVocabulary
  import opened Admission
  import opened AdmissionMeaning
  import opened PlainContracts

  // ------------------------------------------------------------------------------
  // Evaluation
  // ------------------------------------------------------------------------------

  // A direct $ref hop from one node to another.
  ghost predicate Refers(root: Json, a: Json, b: Json) {
    HopOf(Some(a)).Some? && Resolve(root, HopOf(Some(a)).value) == Some(b)
  }

  // Words whose schemas are applied to the very value their own schema is applied to; the
  // others go down into its items, its properties or their names.
  const IN_PLACE := [Not, If, Then, Else, AllOf, AnyOf, OneOf, DependentSchemas]

  // Words that apply nothing: what they hold is reached by reference only.
  const CONTAINERS := [Defs, Definitions]

  ghost predicate HoldsBy(k: Keyword, a: Json, b: Json) {
    && a.JObj? && b.JObj? && Word(k) in a.m
    && ( (k in SCHEMA_VALUED && a.m[Word(k)] == b)
         || ((k in SCHEMA_LIST_VALUED || k == Items) && a.m[Word(k)].JArr? && b in a.m[Word(k)].items)
         || (k in SCHEMA_MAP_VALUED && exists name :: Names(a, k, name) && a.m[Word(k)].m[name] == b))
  }

  // "then" and "else" are looked at by the handler of "if" alone.
  ghost predicate Applies(k: Keyword, a: Json, b: Json) {
    k !in CONTAINERS && HoldsBy(k, a, b) && (k == Then || k == Else ==> Word(If) in a.m)
  }

  // Evaluating a schema on a value may evaluate the other on the same value.
  ghost predicate InPlace(root: Json, a: Json, b: Json) {
    Refers(root, a, b) || exists k :: k in IN_PLACE && Applies(k, a, b)
  }

  // Or on that value or anything in it.
  ghost predicate Evaluates(root: Json, a: Json, b: Json) {
    Refers(root, a, b) || exists k :: Applies(k, a, b)
  }

  ghost function Hopping(root: Json): (Json, Json) -> bool {
    (a, b) => Refers(root, a, b)
  }

  ghost function OnOneValue(root: Json): (Json, Json) -> bool {
    (a, b) => InPlace(root, a, b)
  }

  ghost function Evaluation(root: Json): (Json, Json) -> bool {
    (a, b) => Evaluates(root, a, b)
  }

  // Evaluating the document reaches a schema whose evaluation comes back to it on the same
  // value.
  ghost predicate Recurs(root: Json) {
    exists node :: Leads(Evaluation(root), root, node) && ComesBack(OnOneValue(root), node)
  }

  // A schema in evaluation, on a value with at most so many levels below it. A step stays on
  // the value or goes down into it.
  datatype Moment = Moment(schema: Json, levels: nat)

  ghost predicate Happens(root: Json, a: Moment, b: Moment) {
    || (InPlace(root, a.schema, b.schema) && b.levels == a.levels)
    || (Evaluates(root, a.schema, b.schema) && b.levels < a.levels)
  }

  ghost function Happening(root: Json): (Moment, Moment) -> bool {
    (a, b) => Happens(root, a, b)
  }

  // On a value of so many levels the evaluation of the document can be of any depth.
  ghost predicate HasNoBound(root: Json, levels: nat) {
    forall n: nat :: ReachesDepth(Happening(root), Moment(root, levels), n)
  }

  // ------------------------------------------------------------------------------
  // Evaluation stays inside the document
  // ------------------------------------------------------------------------------

  // The document and everything in it.
  ghost function AllNodes(j: Json): set<Json> {
    match j
    case JArr(items) => {j} + set i, n | 0 <= i < |items| && n in AllNodes(items[i]) :: n
    case JObj(_, m) => {j} + set k, n | k in m && n in AllNodes(m[k]) :: n
    case _ => {j}
  }

  lemma {:induction false} NodesOfNodes(root: Json, node: Json)
    requires node in AllNodes(root)
    ensures AllNodes(node) <= AllNodes(root)
    decreases root
  {
    if node != root {
      match root
      case JArr(items) =>
        var i :| 0 <= i < |items| && node in AllNodes(items[i]);
        NodesOfNodes(items[i], node);
      case JObj(_, m) =>
        var k :| k in m && node in AllNodes(m[k]);
        NodesOfNodes(m[k], node);
    }
  }

  lemma ItselfANode(j: Json)
    ensures j in AllNodes(j)
  {
  }

  lemma ChildIsANode(j: Json)
    ensures j.JObj? ==> forall k :: k in j.m ==> j.m[k] in AllNodes(j)
    ensures j.JArr? ==> forall i :: 0 <= i < |j.items| ==> j.items[i] in AllNodes(j)
  {
    if j.JObj? {
      forall k | k in j.m ensures j.m[k] in AllNodes(j) {
        ItselfANode(j.m[k]);
      }
    }
    if j.JArr? {
      forall i | 0 <= i < |j.items| ensures j.items[i] in AllNodes(j) {
        ItselfANode(j.items[i]);
      }
    }
  }

  lemma {:induction false} PathNodeIsANode(doc: Json, path: seq<PathStep>)
    requires NodeAt(doc, path).Some?
    ensures NodeAt(doc, path).value in AllNodes(doc)
  {
    hide AllNodes;
    if path == [] {
      ItselfANode(doc);
    } else {
      ChildIsANode(doc);
      var child := match path[0] case Key(k) => doc.m[k] case Index(i) => doc.items[i];
      PathNodeIsANode(child, path[1..]);
      NodesOfNodes(doc, child);
    }
  }

  lemma HeldIsANode(a: Json, b: Json)
    requires HoldsSchema(a, b)
    ensures b in AllNodes(a) && b < a
  {
    hide AllNodes;
    ChildIsANode(a);
    if k :| k in SCHEMA_VALUED && Word(k) in a.m && a.m[Word(k)] == b {
    } else if k :| (k in SCHEMA_LIST_VALUED || k == Items) && Word(k) in a.m && a.m[Word(k)].JArr? && b in a.m[Word(k)].items {
      ChildIsANode(a.m[Word(k)]);
      NodesOfNodes(a, a.m[Word(k)]);
    } else {
      var k, name :| k in SCHEMA_MAP_VALUED && Names(a, k, name) && a.m[Word(k)].m[name] == b;
      ChildIsANode(a.m[Word(k)]);
      NodesOfNodes(a, a.m[Word(k)]);
    }
  }

  lemma AppliesDown(k: Keyword, a: Json, b: Json)
    requires Applies(k, a, b)
    ensures HoldsSchema(a, b)
  {
    hide Word;
  }

  lemma InPlaceEvaluates(root: Json, a: Json, b: Json)
    requires InPlace(root, a, b)
    ensures Evaluates(root, a, b)
  {
    hide Refers, Applies;
  }

  // A step is a reference or goes down to a smaller schema.
  lemma HopOrDown(root: Json, a: Json, b: Json)
    requires Evaluates(root, a, b)
    ensures Refers(root, a, b) || b < a
    ensures a in AllNodes(root) ==> b in AllNodes(root)
  {
    hide AllNodes, Applies, HoldsSchema, Resolve, HopOf;
    if Refers(root, a, b) {
      var path := ResolvedIsANode(root, HopOf(Some(a)).value);
      PathNodeIsANode(root, path);
    } else {
      var k :| Applies(k, a, b);
      AppliesDown(k, a, b);
      HeldIsANode(a, b);
      if a in AllNodes(root) {
        NodesOfNodes(root, a);
      }
    }
  }

  lemma LeadsInside(root: Json, a: Json, b: Json)
    requires Leads(Evaluation(root), a, b) && a in AllNodes(root)
    ensures b in AllNodes(root)
  {
    hide AllNodes, Evaluates, Leads;
    var inside := node => node in AllNodes(root);
    forall x, y ensures inside(x) && Evaluation(root)(x, y) ==> inside(y) {
      if Evaluates(root, x, y) {
        HopOrDown(root, x, y);
      }
    }
    LeadsWithin(Evaluation(root), a, b, inside);
  }

  // ------------------------------------------------------------------------------
  // Recursion is evaluation that never ends
  // ------------------------------------------------------------------------------

  lemma {:induction false} InPlaceIsEvaluation(root: Json, p: seq<Json>)
    requires IsPath(OnOneValue(root), p)
    ensures IsPath(Evaluation(root), p)
  {
    hide InPlace, Evaluates;
    if |p| > 1 {
      InPlaceIsEvaluation(root, p[..|p| - 1]);
      assert InPlace(root, p[|p| - 2], p[|p| - 1]);
      InPlaceEvaluates(root, p[|p| - 2], p[|p| - 1]);
    }
  }

  lemma LeadsInPlace(root: Json, a: Json, b: Json)
    requires Leads(OnOneValue(root), a, b)
    ensures Leads(Evaluation(root), a, b)
  {
    var p :| Joins(OnOneValue(root), p, a, b);
    InPlaceIsEvaluation(root, p);
    assert Joins(Evaluation(root), p, a, b);
  }

  // On one value the evaluation of a schema never ends exactly when references and in-place
  // words come round.
  lemma OneValueNeverEndsExactlyWhen(root: Json, node: Json)
    requires node in AllNodes(root)
    ensures (forall n: nat :: ReachesDepth(OnOneValue(root), node, n))
       <==> exists met :: Leads(OnOneValue(root), node, met) && ComesBack(OnOneValue(root), met)
  {
    hide InPlace, AllNodes, Leads, ComesBack;
    var step, s := OnOneValue(root), AllNodes(root);
    if met :| Leads(step, node, met) && ComesBack(step, met) {
      RoundHasNoBound(step, node, met);
    }
    if forall n: nat :: ReachesDepth(step, node, n) {
      assert ReachesDepth(step, node, |s|);
      var p :| IsPath(step, p) && p[0] == node && |p| == |s| + 1;
      forall i | 0 <= i < |p| ensures p[i] in s {
        BetweenLeads(step, p, 0, i);
        LeadsInPlace(root, node, p[i]);
        LeadsInside(root, node, p[i]);
      }
      var met := LongPathGoesRound(step, p, s);
    }
  }

  ghost function AllMoments(root: Json, levels: nat): set<Moment> {
    set schema, n: nat | schema in AllNodes(root) && 0 <= n <= levels :: Moment(schema, n)
  }

  lemma HappensInside(root: Json, levels: nat, a: Moment, b: Moment)
    requires Happens(root, a, b) && a in AllMoments(root, levels)
    ensures b in AllMoments(root, levels)
  {
    hide AllNodes, InPlace, Evaluates;
    if InPlace(root, a.schema, b.schema) {
      InPlaceEvaluates(root, a.schema, b.schema);
    }
    HopOrDown(root, a.schema, b.schema);
  }

  lemma MomentsInside(root: Json, levels: nat, p: seq<Moment>)
    requires IsPath(Happening(root), p) && p[0] == Moment(root, levels)
    ensures forall x :: x in p ==> x in AllMoments(root, levels)
  {
    hide AllMoments, Happens;
    var inside := x => x in AllMoments(root, levels);
    RootMoment(root, levels);
    forall x, y ensures inside(x) && Happening(root)(x, y) ==> inside(y) {
      if inside(x) && Happens(root, x, y) {
        HappensInside(root, levels, x, y);
      }
    }
    PathStaysWithin(Happening(root), p, inside);
  }

  lemma RootMoment(root: Json, levels: nat)
    ensures Moment(root, levels) in AllMoments(root, levels)
  {
    hide AllNodes;
    ItselfANode(root);
  }

  // Levels never rise, and a path that keeps them stays on one value.
  lemma {:induction false} SchemasOfMoments(root: Json, p: seq<Moment>) returns (q: seq<Json>)
    requires IsPath(Happening(root), p)
    ensures IsPath(Evaluation(root), q) && q[0] == p[0].schema && q[|q| - 1] == p[|p| - 1].schema && |q| == |p|
    ensures p[|p| - 1].levels <= p[0].levels
    ensures p[|p| - 1].levels == p[0].levels ==> IsPath(OnOneValue(root), q)
  {
    hide InPlace, Evaluates;
    var n := |p| - 1;
    if n == 0 {
      q := [p[0].schema];
    } else {
      var before := SchemasOfMoments(root, p[..n]);
      q := before + [p[n].schema];
      assert q[..n] == before;
      assert Happens(root, p[n - 1], p[n]);
      if InPlace(root, p[n - 1].schema, p[n].schema) {
        InPlaceEvaluates(root, p[n - 1].schema, p[n].schema);
      }
    }
  }

  // And back: a path on one value happens on any number of levels, and any evaluation path
  // happens on enough of them.
  lemma {:induction false} MomentsOfSchemas(root: Json, q: seq<Json>) returns (p: seq<Moment>)
    requires IsPath(Evaluation(root), q)
    ensures IsPath(Happening(root), p) && p[0] == Moment(q[0], |q| - 1) && p[|p| - 1] == Moment(q[|q| - 1], 0)
  {
    hide Evaluates;
    p := MomentsFrom(root, q, |q| - 1);
  }

  lemma {:induction false} MomentsFrom(root: Json, q: seq<Json>, levels: nat) returns (p: seq<Moment>)
    requires IsPath(Evaluation(root), q) && levels >= |q| - 1
    ensures IsPath(Happening(root), p) && |p| == |q| && p[0] == Moment(q[0], levels)
    ensures p[|p| - 1] == Moment(q[|q| - 1], levels - (|q| - 1))
  {
    hide InPlace, Evaluates;
    var n := |q| - 1;
    if n == 0 {
      p := [Moment(q[0], levels)];
    } else {
      var before := MomentsFrom(root, q[..n], levels);
      p := before + [Moment(q[n], levels - n)];
      assert p[..n] == before;
      assert Evaluates(root, q[n - 1], q[n]);
    }
  }

  lemma {:induction false} MomentsInPlace(root: Json, q: seq<Json>, levels: nat) returns (p: seq<Moment>)
    requires IsPath(OnOneValue(root), q)
    ensures IsPath(Happening(root), p) && |p| == |q| && p[0] == Moment(q[0], levels)
    ensures p[|p| - 1] == Moment(q[|q| - 1], levels)
  {
    hide InPlace, Evaluates;
    var n := |q| - 1;
    if n == 0 {
      p := [Moment(q[0], levels)];
    } else {
      var before := MomentsInPlace(root, q[..n], levels);
      p := before + [Moment(q[n], levels)];
      assert p[..n] == before;
      assert InPlace(root, q[n - 1], q[n]);
    }
  }

  lemma RecursOnSomeLevels(root: Json)
    requires Recurs(root)
    ensures exists levels: nat :: HasNoBound(root, levels)
  {
    hide InPlace, Evaluates, Happens;
    var node :| Leads(Evaluation(root), root, node) && ComesBack(OnOneValue(root), node);
    var q :| Joins(Evaluation(root), q, root, node);
    var p := MomentsOfSchemas(root, q);
    var from, met := Moment(root, |q| - 1), Moment(node, 0);
    assert Joins(Happening(root), p, from, met);
    MomentComesBack(root, node);
    RoundHasNoBound(Happening(root), from, met);
    assert HasNoBound(root, |q| - 1);
  }

  lemma MomentComesBack(root: Json, node: Json)
    requires ComesBack(OnOneValue(root), node)
    ensures ComesBack(Happening(root), Moment(node, 0))
  {
    hide InPlace, Evaluates;
    var next :| OnOneValue(root)(node, next) && Leads(OnOneValue(root), next, node);
    var q :| Joins(OnOneValue(root), q, next, node);
    var p := MomentsInPlace(root, q, 0);
    assert Joins(Happening(root), p, Moment(next, 0), Moment(node, 0));
    assert Happening(root)(Moment(node, 0), Moment(next, 0));
  }

  // A contract that does not recur is evaluated, on a value of so many levels, no deeper
  // than it has schemas times levels.
  lemma BoundedUnlessItRecurs(root: Json, levels: nat, p: seq<Moment>)
    requires IsPath(Happening(root), p) && p[0] == Moment(root, levels) && |p| > |AllMoments(root, levels)|
    ensures Recurs(root)
  {
    hide InPlace, Evaluates, Happens, AllMoments;
    MomentsInside(root, levels, p);
    var met := LongPathGoesRound(Happening(root), p, AllMoments(root, levels));
    var to :| Joins(Happening(root), to, Moment(root, levels), met);
    var way := SchemasOfMoments(root, to);
    assert Joins(Evaluation(root), way, root, met.schema);
    ComesBackInPlace(root, met);
  }

  lemma ComesBackInPlace(root: Json, met: Moment)
    requires ComesBack(Happening(root), met)
    ensures ComesBack(OnOneValue(root), met.schema)
  {
    hide InPlace, Evaluates;
    var next :| Happening(root)(met, next) && Leads(Happening(root), next, met);
    var back :| Joins(Happening(root), back, next, met);
    var q := SchemasOfMoments(root, back);
    assert OnOneValue(root)(met.schema, next.schema);
    assert Joins(OnOneValue(root), q, next.schema, met.schema);
  }

  // A contract recurs exactly when, on values of some depth, its evaluation has no bound.
  lemma RecursExactlyWhenUnbounded(root: Json)
    ensures Recurs(root)
       <==> exists levels: nat :: HasNoBound(root, levels)
  {
    hide Recurs, Happens, AllMoments;
    if Recurs(root) {
      RecursOnSomeLevels(root);
    }
    if levels: nat :| HasNoBound(root, levels) {
      assert ReachesDepth(Happening(root), Moment(root, levels), |AllMoments(root, levels)|);
      var p :| IsPath(Happening(root), p) && p[0] == Moment(root, levels) && |p| == |AllMoments(root, levels)| + 1;
      BoundedUnlessItRecurs(root, levels, p);
    }
  }

  // ------------------------------------------------------------------------------
  // Recursion comes from references
  // ------------------------------------------------------------------------------

  // A path that goes down by keywords alone ends in a smaller schema.
  lemma {:induction false} DownOrRefers(root: Json, p: seq<Json>) returns (i: nat)
    requires IsPath(OnOneValue(root), p) && |p| >= 2
    ensures i + 1 < |p| && (Refers(root, p[i], p[i + 1]) || p[|p| - 1] < p[0])
    decreases |p|
  {
    hide InPlace, Evaluates, Refers;
    var n := |p| - 1;
    assert InPlace(root, p[n - 1], p[n]);
    if Refers(root, p[n - 1], p[n]) {
      i := n - 1;
    } else {
      InPlaceEvaluates(root, p[n - 1], p[n]);
      HopOrDown(root, p[n - 1], p[n]);
      if n == 1 {
        i := 0;
      } else {
        i := DownOrRefers(root, p[..n]);
      }
    }
  }

  // A reference met in evaluation whose target leads back to it on the same value.
  ghost predicate RefersBack(root: Json, node: Json, target: Json) {
    Leads(Evaluation(root), root, node) && Refers(root, node, target) && Leads(OnOneValue(root), target, node)
  }

  // A contract recurs exactly when evaluating it meets a reference whose target leads back
  // to that reference, by references and in-place words in any order.
  lemma RecursExactlyWhenAReferenceLeadsBack(root: Json)
    ensures Recurs(root) <==> exists node, target :: RefersBack(root, node, target)
  {
    hide Refers, InPlace, Evaluates, Leads;
    if Recurs(root) {
      var node :| Leads(Evaluation(root), root, node) && ComesBack(OnOneValue(root), node);
      var next :| OnOneValue(root)(node, next) && Leads(OnOneValue(root), next, node);
      var node', target := TheReferenceOfALoop(root, node, next);
      LeadsInPlace(root, node, node');
      LeadsOn(Evaluation(root), root, node, node');
      assert RefersBack(root, node', target);
    }
    if node, target :| RefersBack(root, node, target) {
      ReferringIsInPlace(root, node, target);
      assert OnOneValue(root)(node, target);
    }
  }

  lemma ReferringIsInPlace(root: Json, a: Json, b: Json)
    requires Refers(root, a, b)
    ensures InPlace(root, a, b)
  {
  }

  lemma TheReferenceOfALoop(root: Json, node: Json, next: Json) returns (from: Json, target: Json)
    requires OnOneValue(root)(node, next) && Leads(OnOneValue(root), next, node)
    ensures Leads(OnOneValue(root), node, from) && Refers(root, from, target) && Leads(OnOneValue(root), target, from)
  {
    hide Refers, InPlace;
    var step := OnOneValue(root);
    var back :| Joins(step, back, next, node);
    assert [node, next][..1] == [node];
    PathsJoin(step, [node, next], back);
    var loop := [node, next] + back[1..];
    assert IsPath(step, loop) && loop[0] == node && loop[|loop| - 1] == node;
    var i := DownOrRefers(root, loop);
    from, target := loop[i], loop[i + 1];
    BetweenLeads(step, loop, 0, i);
    BetweenLeads(step, loop, i + 1, |loop| - 1);
    LeadsOn(step, target, node, from);
  }

  // ------------------------------------------------------------------------------
  // What the reference check refuses
  // ------------------------------------------------------------------------------

  // Direct hops from the node meet some node twice.
  ghost predicate HopsRoundFrom(root: Json, node: Json) {
    exists p, i, j :: IsPath(Hopping(root), p) && p[0] == node && 0 <= i < j < |p| && p[i] == p[j]
  }

  lemma {:induction false} HopsAlongPath(root: Json, p: seq<Json>, ref: string, k: nat)
    requires IsPath(Hopping(root), p) && HopOf(Some(p[0])) == Some(ref) && k < |p|
    ensures Hops(root, ref, k) == HopOf(Some(p[k]))
    decreases |p|
  {
    hide HopOf, Resolve;
    if k < |p| - 1 {
      HopsAlongPath(root, p[..|p| - 1], ref, k);
    } else if k > 0 {
      HopsAlongPath(root, p[..k], ref, k - 1);
      assert p[..|p| - 1] == p[..k];
      assert Refers(root, p[k - 1], p[k]);
    }
  }

  lemma {:induction false} PathOfHops(root: Json, node: Json, ref: string, n: nat) returns (p: seq<Json>)
    requires HopOf(Some(node)) == Some(ref) && NeverEnds(root, ref)
    ensures IsPath(Hopping(root), p) && |p| == n + 1 && p[0] == node
  {
    hide HopOf, Resolve;
    if n == 0 {
      p := [node];
    } else {
      var q := PathOfHops(root, node, ref, n - 1);
      HopsAlongPath(root, q, ref, n - 1);
      assert Hops(root, ref, n - 1).Some? && Hops(root, ref, n).Some?;
      NoHopFromNowhere();
      p := q + [Resolve(root, Hops(root, ref, n - 1).value).value];
      assert p[..|p| - 1] == q;
    }
  }

  lemma NoHopFromNowhere()
    ensures HopOf(None) == None
  {
  }

  // Following direct hops never ends exactly when they come round.
  lemma NeverEndsExactlyWhenRound(root: Json, node: Json, ref: string)
    requires HopOf(Some(node)) == Some(ref)
    ensures NeverEnds(root, ref) <==> HopsRoundFrom(root, node)
  {
    hide HopOf, Resolve, Refers;
    if NeverEnds(root, ref) {
      var s := AllNodes(root) + {node};
      var p := PathOfHops(root, node, ref, |s|);
      HopTargetsInside(root, p);
      var i, j := Pigeonhole(p, s);
      assert HopsRoundFrom(root, node);
    }
    if p, i, j :| IsPath(Hopping(root), p) && p[0] == node && 0 <= i < j < |p| && p[i] == p[j] {
      HopsAlongPath(root, p, ref, i);
      HopsAlongPath(root, p, ref, j);
      SomethingHops(root, p, i);
      forall n: nat ensures Hops(root, ref, n).Some? {
        RevisitNeverEnds(root, ref, i, j, n);
      }
    }
  }

  lemma {:induction false} HopTargetsInside(root: Json, p: seq<Json>)
    requires IsPath(Hopping(root), p)
    ensures forall n :: n in p ==> n in AllNodes(root) + {p[0]}
  {
    hide AllNodes, HopOf, Resolve;
    if |p| > 1 {
      var n := |p| - 1;
      HopTargetsInside(root, p[..n]);
      var path := ResolvedIsANode(root, HopOf(Some(p[n - 1])).value);
      PathNodeIsANode(root, path);
      assert p == p[..n] + [p[n]];
    }
  }

  lemma {:induction false} SomethingHops(root: Json, p: seq<Json>, i: nat)
    requires IsPath(Hopping(root), p) && i + 1 < |p|
    ensures Refers(root, p[i], p[i + 1]) && HopOf(Some(p[i])).Some?
    decreases |p|
  {
    hide HopOf, Resolve;
    if i + 2 < |p| {
      SomethingHops(root, p[..|p| - 1], i);
    }
  }

  // A visited reference that is a local string and resolves.
  ghost predicate LocalAndThere(root: Json, node: Json) {
    node.JObj? &&
    (GetOr(node, "$ref", JNull).JNull? || (HopOf(Some(node)).Some? && Resolve(root, HopOf(Some(node)).value).Some?))
  }

  lemma SoundExactlyWhen(root: Json, node: Json)
    requires node.JObj?
    ensures SoundReference(root, GetOr(node, "$ref", JNull))
       <==> LocalAndThere(root, node) && !HopsRoundFrom(root, node)
  {
    hide Resolve, NeverEnds, HopsRoundFrom;
    var ref := GetOr(node, "$ref", JNull);
    if HopOf(Some(node)).Some? {
      NeverEndsExactlyWhenRound(root, node, HopOf(Some(node)).value);
    } else if ref.JNull? {
      NothingToHop(root, node);
    }
  }

  lemma NothingToHop(root: Json, node: Json)
    requires HopOf(Some(node)).None?
    ensures !HopsRoundFrom(root, node)
  {
    hide HopOf, Resolve;
    if p, i, j :| IsPath(Hopping(root), p) && p[0] == node && 0 <= i < j < |p| && p[i] == p[j] {
      SomethingHops(root, p, 0);
    }
  }

  // The reference check passes a contract exactly when every visited reference is local,
  // resolves, and starts no round of direct hops: of the cycles it refuses those of direct
  // hops and no others.
  lemma ReferenceCheckExactly(schema: Json)
    requires schema.JObj?
    ensures FlatMap(WalkSubschemas(schema, ROOT), ReferenceIssues(schema)) == []
       <==> forall v :: v in WalkSubschemas(schema, ROOT) ==> LocalAndThere(schema, v.node) && !HopsRoundFrom(schema, v.node)
  {
    hide FlatMap, WalkSubschemas, HopsRoundFrom, LocalAndThere, SoundReference, RefIssues, ClosedDown;
    var visits := WalkSubschemas(schema, ROOT);
    NothingCollected(visits, ReferenceIssues(schema));
    EveryVisitIsAnObject(schema);
    forall i | 0 <= i < |visits|
      ensures ReferenceIssues(schema)(visits[i]) == []
         <==> LocalAndThere(schema, visits[i].node) && !HopsRoundFrom(schema, visits[i].node)
    {
      assert visits[i] in visits;
      RefIssuesMean(schema, visits[i]);
      SoundExactlyWhen(schema, visits[i].node);
    }
    assert forall v :: v in visits <==> exists i :: 0 <= i < |visits| && visits[i] == v;
  }

  // So no schema of an admitted contract starts a round of direct hops: if the contract
  // recurs, keywords are on the way.
  lemma AdmittedHopsNeverComeRound(re: Regex, schema: Json, setting: Setting, chain: seq<Json>)
    requires Admit(re, schema, setting).admitted && WellFormed(schema) && Beneath(schema, chain)
    ensures chain[|chain| - 1].JObj? ==> LocalAndThere(schema, chain[|chain| - 1]) && !HopsRoundFrom(schema, chain[|chain| - 1])
  {
    hide Admit, SoundReference, LocalAndThere, HopsRoundFrom, HoldsSchema;
    AdmittedReferencesEnd(re, schema, setting, chain);
    if chain[|chain| - 1].JObj? {
      SoundExactlyWhen(schema, chain[|chain| - 1]);
    }
  }

  lemma RefIssuesMean(root: Json, visit: Visit)
    requires visit.node.JObj?
    ensures ReferenceIssues(root)(visit) == [] <==> SoundReference(root, GetOr(visit.node, "$ref", JNull))
  {
    hide Resolve, NeverEnds;
  }

  lemma EveryVisitIsAnObject(schema: Json)
    ensures forall v :: v in WalkSubschemas(schema, ROOT) ==> v.node.JObj?
  {
    hide WalkSubschemas, HoldsSchema;
    WalkStaysWithin(schema, ROOT, n => true);
  }

  // ------------------------------------------------------------------------------
  // An admitted contract that recurs
  // ------------------------------------------------------------------------------

  const THE_WHOLE: Json := OneKey("$ref", JStr("#"))
  const NOT_ITSELF: Json := OneKey("not", THE_WHOLE)

  // {"not": {"$ref": "#"}} is admitted by every setting whose evaluators enforce "not", and
  // its evaluation never ends on any value.
  lemma CyclesThroughKeywordsPass(re: Regex, setting: Setting)
    requires "not" in setting.enforced
    ensures Admit(re, NOT_ITSELF, setting).admitted && WellFormed(NOT_ITSELF) && Recurs(NOT_ITSELF)
    ensures forall n: nat :: ReachesDepth(OnOneValue(NOT_ITSELF), NOT_ITSELF, n)
  {
    hide Admit, Recurs, SoundNode, WalkSubschemas, HoldsSchema, ReportedAreCovered;
    AdmittedExactly(re, NOT_ITSELF, setting);
    NotItselfRecurs();
    NotItselfCovered(setting);
    var part := node => node == NOT_ITSELF || node == THE_WHOLE;
    forall a, b | part(a) && HoldsSchema(a, b) ensures part(b) {
      NotItselfHolds(a, b);
    }
    WalkStaysWithin(NOT_ITSELF, ROOT, part);
    forall v | v in WalkSubschemas(NOT_ITSELF, ROOT) ensures SoundNode(re, NOT_ITSELF, setting, v) {
      NotItselfSound(re, setting, v);
    }
  }

  lemma NotItselfHolds(a: Json, b: Json)
    requires (a == NOT_ITSELF || a == THE_WHOLE) && HoldsSchema(a, b)
    ensures b == THE_WHOLE
  {
  }

  lemma NotItselfCovered(setting: Setting)
    requires "not" in setting.enforced
    ensures ReportedAreCovered(NOT_ITSELF, setting.enforced)
  {
    hide LastSegment, Findings, Listed;
    OneKeyFindings("not", THE_WHOLE);
    LastOfSplit(ROOT, "not");
    AllCovered(NOT_ITSELF, setting.enforced);
  }

  lemma NotItselfSound(re: Regex, setting: Setting, visit: Visit)
    requires visit.node == NOT_ITSELF || visit.node == THE_WHOLE
    ensures SoundNode(re, NOT_ITSELF, setting, visit)
  {
    hide AssertsBound, NeverEnds;
    if visit.node == NOT_ITSELF {
      UnjudgedIsSound(re, NOT_ITSELF, setting, visit);
    } else {
      TheWholeEnds();
    }
  }

  lemma TheWholeEnds()
    ensures !NeverEnds(NOT_ITSELF, "#")
  {
    assert Hops(NOT_ITSELF, "#", 0) == Some("#");
    assert Hops(NOT_ITSELF, "#", 1) == None;
  }

  lemma NotItselfRecurs()
    ensures Recurs(NOT_ITSELF)
    ensures forall n: nat :: ReachesDepth(OnOneValue(NOT_ITSELF), NOT_ITSELF, n)
  {
    hide InPlace, Evaluates;
    var step := OnOneValue(NOT_ITSELF);
    NotItselfSteps();
    assert step(NOT_ITSELF, THE_WHOLE) && step(THE_WHOLE, NOT_ITSELF);
    StepLeads(step, THE_WHOLE, NOT_ITSELF);
    StepLeads(step, NOT_ITSELF, NOT_ITSELF);
    StepLeads(Evaluation(NOT_ITSELF), NOT_ITSELF, NOT_ITSELF);
    RoundHasNoBound(step, NOT_ITSELF, NOT_ITSELF);
  }

  lemma NotItselfSteps()
    ensures InPlace(NOT_ITSELF, NOT_ITSELF, THE_WHOLE) && InPlace(NOT_ITSELF, THE_WHOLE, NOT_ITSELF)
  {
    assert Not in SCHEMA_VALUED && Word(Not) in NOT_ITSELF.m;
    assert Not in IN_PLACE && Applies(Not, NOT_ITSELF, THE_WHOLE);
  }

  // ------------------------------------------------------------------------------
  // Contracts that come round and do not recur
  // ------------------------------------------------------------------------------

  // Definitions alone are never evaluated, whatever they refer to.
  lemma DefinitionsAloneDoNotRecur(definitions: Json)
    ensures !Recurs(OneKey("$defs", definitions))
  {
    hide Leads, Refers;
    var root := OneKey("$defs", definitions);
    forall b ensures !Evaluates(root, root, b) {
      NothingApplies(definitions, b);
    }
    if node :| Leads(Evaluation(root), root, node) && ComesBack(OnOneValue(root), node) {
      LeadsWithin(Evaluation(root), root, node, x => x == root);
      var next :| OnOneValue(root)(node, next) && Leads(OnOneValue(root), next, node);
      InPlaceEvaluates(root, root, next);
    }
  }

  lemma NothingApplies(definitions: Json, b: Json)
    ensures !Evaluates(OneKey("$defs", definitions), OneKey("$defs", definitions), b)
  {
    hide Resolve;
    forall k ensures !Applies(k, OneKey("$defs", definitions), b) {
      DefsIsAContainer(k);
    }
  }

  lemma DefsIsAContainer(k: Keyword)
    ensures Word(k) == "$defs" ==> k in CONTAINERS
  {
  }

  const A_TREE: Json := OneProperty("child", THE_WHOLE)

  // {"properties": {"child": {"$ref": "#"}}}, a tree of such objects, is admitted and comes
  // back to itself, but only further down in the value: it does not recur.
  lemma TreesDoNotRecur(re: Regex, setting: Setting)
    requires "$ref" in setting.enforced
    ensures Admit(re, A_TREE, setting).admitted && WellFormed(A_TREE)
    ensures ComesBack(Evaluation(A_TREE), A_TREE) && !Recurs(A_TREE)
  {
    hide Admit, Recurs, Evaluates;
    TreeAdmitted(re, setting);
    TreeComesBack();
    TreeDoesNotRecur();
  }

  lemma TreeAdmitted(re: Regex, setting: Setting)
    requires "$ref" in setting.enforced
    ensures Admit(re, A_TREE, setting).admitted
  {
    hide Admit, SoundNode, WalkSubschemas, HoldsSchema, ReportedAreCovered;
    AdmittedExactly(re, A_TREE, setting);
    TreeCovered(setting);
    var part := node => node == A_TREE || node == THE_WHOLE;
    forall a, b | part(a) && HoldsSchema(a, b) ensures part(b) {
      TreeHolds(a, b);
    }
    WalkStaysWithin(A_TREE, ROOT, part);
    forall v | v in WalkSubschemas(A_TREE, ROOT) ensures SoundNode(re, A_TREE, setting, v) {
      TreeSound(re, setting, v);
    }
  }

  lemma TreeCovered(setting: Setting)
    requires "$ref" in setting.enforced
    ensures ReportedAreCovered(A_TREE, setting.enforced)
  {
    hide ReportedAreCovered, Findings, Listed, LastSegment, FlatMap;
    OnePropertyFindings("child", THE_WHOLE);
    FlatMapOne("$ref", KeyFindings("child", THE_WHOLE));
    LastOfSplit("child", "$ref");
    AllCovered(A_TREE, setting.enforced);
  }

  lemma TreeHolds(a: Json, b: Json)
    requires (a == A_TREE || a == THE_WHOLE) && HoldsSchema(a, b)
    ensures b == THE_WHOLE && a == A_TREE
  {
    hide Word;
    TreeWords();
    assert THE_WHOLE.m.Keys == {"$ref"} && A_TREE.m.Keys == {"properties"};
  }

  lemma TreeWords()
    ensures forall k: Keyword :: Word(k) != "$ref" && (Word(k) == "properties" <==> k == Properties)
  {
  }

  lemma TreeSound(re: Regex, setting: Setting, visit: Visit)
    requires visit.node == A_TREE || visit.node == THE_WHOLE
    ensures SoundNode(re, A_TREE, setting, visit)
  {
    hide AssertsBound, NeverEnds;
    if visit.node == A_TREE {
      UnjudgedIsSound(re, A_TREE, setting, visit);
    } else {
      TreeEnds();
    }
  }

  lemma TreeEnds()
    ensures !NeverEnds(A_TREE, "#")
  {
    assert Hops(A_TREE, "#", 0) == Some("#");
    assert Hops(A_TREE, "#", 1) == None;
  }

  lemma TreeComesBack()
    ensures ComesBack(Evaluation(A_TREE), A_TREE)
  {
    hide Evaluates;
    TreeSteps();
    assert Evaluation(A_TREE)(A_TREE, THE_WHOLE);
    StepLeads(Evaluation(A_TREE), THE_WHOLE, A_TREE);
  }

  lemma TreeSteps()
    ensures Evaluates(A_TREE, A_TREE, THE_WHOLE) && Evaluates(A_TREE, THE_WHOLE, A_TREE)
  {
    assert Names(A_TREE, Properties, "child") && Properties in SCHEMA_MAP_VALUED;
    assert Applies(Properties, A_TREE, THE_WHOLE);
  }

  lemma TreeStaysThere(b: Json)
    ensures !InPlace(A_TREE, A_TREE, b)
    ensures InPlace(A_TREE, THE_WHOLE, b) ==> b == A_TREE
  {
    hide Word;
    TreeWords();
    assert THE_WHOLE.m.Keys == {"$ref"} && A_TREE.m.Keys == {"properties"};
  }

  lemma TreeStays(a: Json, b: Json)
    requires (a == A_TREE || a == THE_WHOLE) && Evaluates(A_TREE, a, b)
    ensures b == A_TREE || b == THE_WHOLE
  {
    hide HoldsSchema, Applies;
    if k :| Applies(k, a, b) {
      AppliesDown(k, a, b);
      TreeHolds(a, b);
    }
  }

  lemma TreeDoesNotRecur()
    ensures !Recurs(A_TREE)
  {
    hide InPlace, Evaluates, Leads;
    var step := OnOneValue(A_TREE);
    if node :| Leads(Evaluation(A_TREE), A_TREE, node) && ComesBack(step, node) {
      forall a, b | (a == A_TREE || a == THE_WHOLE) && Evaluation(A_TREE)(a, b) ensures b == A_TREE || b == THE_WHOLE {
        TreeStays(a, b);
      }
      LeadsWithin(Evaluation(A_TREE), A_TREE, node, x => x == A_TREE || x == THE_WHOLE);
      var next :| step(node, next) && Leads(step, next, node);
      TreeStaysThere(next);
      forall b ensures !step(A_TREE, b) {
        TreeStaysThere(b);
      }
      LeadsWithin(step, next, node, x => x == A_TREE);
    }
  }
}
