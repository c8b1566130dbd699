/** Workflow builders (`chain`, `group`, `chord`) as builders of a dependency graph. */
module Canvas {

  datatype Option<T> = None | Some(value: T)

  /** A task signature; an immutable one never takes upstream results. */
  datatype Signature = Signature(immutable: bool)

  /** A chain argument: a signature, a group of signatures, or a chain. */
  datatype Piece = Task(sig: Signature) | Group(sigs: seq<Signature>) | Chain(pieces: seq<Piece>)

  /** A step of a flattened chain. */
  datatype Step = Single(sig: Signature) | Many(sigs: seq<Signature>)

  /** How a step receives the results of the step before. */
  datatype Pass = PassSingle | PassList

  /** A job as enqueued: its dependencies and what it is passed. */
  datatype Node = Node(id: int, deps: seq<int>, pass: Option<Pass>)

  // ---------------------------------------------------------------------------------
  // Flattening
  // ---------------------------------------------------------------------------------

  /** The steps of a chain argument: a nested chain contributes its own steps. */
  function StepsOf(p: Piece): seq<Step> {
    match p
    case Task(s) => [Single(s)]
    case Group(ss) => [Many(ss)]
    case Chain(ps) => Flatten(ps)
  }

  function Flatten(pieces: seq<Piece>): seq<Step> {
    if pieces == [] then [] else StepsOf(pieces[0]) + Flatten(pieces[1..])
  }

  lemma FlattenPair(a: Piece, b: Piece)
    ensures StepsOf(Chain([a, b])) == StepsOf(a) + StepsOf(b)
  {
    assert [a, b][1..] == [b];
    assert [b][1..] == [];
    assert Flatten([b]) == StepsOf(b) + Flatten([]);
  }

  /** Chaining one list of pieces after another chains their steps, and a nested chain is as good as its pieces. */
  lemma {:induction false} FlattenConcat(xs: seq<Piece>, ys: seq<Piece>)
    ensures Flatten(xs + ys) == Flatten(xs) + Flatten(ys)
    ensures Flatten([Chain(xs)] + ys) == Flatten(xs) + Flatten(ys)
    decreases |xs|
  {
    if xs == [] {
      assert xs + ys == ys;
    } else {
      assert (xs + ys)[0] == xs[0] && (xs + ys)[1..] == xs[1..] + ys;
      FlattenConcat(xs[1..], ys);
    }
    assert ([Chain(xs)] + ys)[1..] == ys;
  }

  /** Signatures and groups become the steps, one each and in the order given. */
  lemma {:induction false} PiecesInOrder(pieces: seq<Piece>, i: nat)
    requires i < |pieces| && forall k :: 0 <= k < |pieces| ==> !pieces[k].Chain?
    ensures |Flatten(pieces)| == |pieces|
    ensures Flatten(pieces)[i] == if pieces[i].Task? then Single(pieces[i].sig) else Many(pieces[i].sigs)
    decreases |pieces|
  {
    if |pieces| > 1 {
      PiecesInOrder(pieces[1..], if i > 0 then i - 1 else 0);
    }
  }

  /** Grouping with `|` does not matter: `(a | b) | c` and `a | (b | c)` are the same chain. */
  lemma ChainIsAssociative(a: Piece, b: Piece, c: Piece)
    ensures StepsOf(Chain([Chain([a, b]), c])) == StepsOf(Chain([a, Chain([b, c])]))
  {
    FlattenPair(a, b);
    FlattenPair(b, c);
    FlattenPair(Chain([a, b]), c);
    FlattenPair(a, Chain([b, c]));
  }

  // ---------------------------------------------------------------------------------
  // Enqueueing
  // ---------------------------------------------------------------------------------

  function Sigs(s: Step): seq<Signature> {
    match s case Single(sig) => [sig] case Many(sigs) => sigs
  }

  function Ids(nodes: seq<Node>): (r: seq<int>)
    ensures |r| == |nodes| && forall i :: 0 <= i < |nodes| ==> r[i] == nodes[i].id
  {
    seq(|nodes|, i requires 0 <= i < |nodes| => nodes[i].id)
  }

  /** The ids of all jobs of a workflow, in the order of enqueueing. */
  function AllIds(layers: seq<seq<Node>>): seq<int> {
    if layers == [] then [] else AllIds(layers[..|layers| - 1]) + Ids(layers[|layers| - 1])
  }

  function TotalSize(steps: seq<Step>): nat {
    if steps == [] then 0 else TotalSize(steps[..|steps| - 1]) + |Sigs(steps[|steps| - 1])|
  }

  lemma {:induction false} TotalSizeMonotone(steps: seq<Step>, n: nat)
    requires n <= |steps|
    ensures TotalSize(steps[..n]) <= TotalSize(steps)
    decreases |steps|
  {
    if n == |steps| {
      assert steps[..n] == steps;
    } else {
      var init := steps[..|steps| - 1];
      assert init[..n] == steps[..n];
      TotalSizeMonotone(init, n);
    }
  }

  /** `Signature._enqueue` and `group._enqueue`: one job per signature, each with the given
      dependencies; the database hands out the ids. */
  method EnqueueStep(sigs: seq<Signature>, ids: seq<int>, deps: seq<int>, pass: Option<Pass>) returns (layer: seq<Node>)
    requires |ids| == |sigs|
    ensures Ids(layer) == ids
    ensures IsLayer(sigs, layer, deps, pass)
  {
    layer := [];
    for i := 0 to |sigs|
      invariant Ids(layer) == ids[..i]
      invariant IsLayer(sigs[..i], layer, deps, pass)
    {
      layer := layer + [Node(ids[i], deps, if sigs[i].immutable then None else pass)];
    }
  }

  predicate IsLayer(sigs: seq<Signature>, layer: seq<Node>, deps: seq<int>, pass: Option<Pass>) {
    && |layer| == |sigs|
    && forall i :: 0 <= i < |sigs| ==>
         layer[i].deps == deps && layer[i].pass == (if sigs[i].immutable then None else pass)
  }

  /** What a step is told to expect from the one before it. */
  function PassFrom(prev: Step): Option<Pass> {
    match prev
    case Single(_) => Some(PassSingle)
    case Many(sigs) => if sigs == [] then None else Some(PassList)
  }

  /** Layer `k` of a chain: every job of it depends on exactly the jobs of layer `k - 1`. */
  predicate LayerFollows(steps: seq<Step>, layers: seq<seq<Node>>, k: nat)
    requires k < |steps| && k < |layers|
  {
    if k == 0 then IsLayer(Sigs(steps[0]), layers[0], [], None)
    else IsLayer(Sigs(steps[k]), layers[k], Ids(layers[k - 1]), PassFrom(steps[k - 1]))
  }

  lemma LayersKeep(steps: seq<Step>, layers: seq<seq<Node>>, layer: seq<Node>)
    requires |layers| <= |steps| && forall k :: 0 <= k < |layers| ==> LayerFollows(steps, layers, k)
    ensures forall k :: 0 <= k < |layers| ==> LayerFollows(steps, layers + [layer], k)
  {
    forall k | 0 <= k < |layers| ensures LayerFollows(steps, layers + [layer], k) {
      assert LayerFollows(steps, layers, k);
      assert (layers + [layer])[k] == layers[k];
    }
  }

  /** The graph of a chain. */
  predicate Built(steps: seq<Step>, layers: seq<seq<Node>>) {
    |layers| == |steps| && forall k :: 0 <= k < |steps| ==> LayerFollows(steps, layers, k)
  }

  /** What a built chain is, job by job: a job of the first step depends on nothing and is passed nothing; a job of a
      later step depends on the jobs of the step before, all of them in order, and is passed the one result, the
      list of results, or nothing if it takes none or there are none. */
  lemma BuiltMeans(steps: seq<Step>, layers: seq<seq<Node>>, k: nat, i: nat)
    requires Built(steps, layers) && k < |steps| && i < |layers[k]|
    ensures |layers[k]| == (if steps[k].Single? then 1 else |steps[k].sigs|)
    ensures k == 0 ==> layers[k][i].deps == [] && layers[k][i].pass == None
    ensures k > 0 ==>
      && |layers[k][i].deps| == |layers[k - 1]|
      && (forall j :: 0 <= j < |layers[k - 1]| ==> layers[k][i].deps[j] == layers[k - 1][j].id)
      && var takes := !(if steps[k].Single? then steps[k].sig.immutable else steps[k].sigs[i].immutable);
         layers[k][i].pass == if !takes || layers[k - 1] == [] then None
                              else if steps[k - 1].Single? then Some(PassSingle) else Some(PassList)
  {
    assert LayerFollows(steps, layers, k);
    if k > 0 {
      assert LayerFollows(steps, layers, k - 1);
    }
  }

  /** The first `|layers|` layers of a chain, with ids drawn from the front of `supply`. */
  predicate BuiltSoFar(steps: seq<Step>, layers: seq<seq<Node>>, supply: seq<int>, next: nat) {
    && |layers| <= |steps|
    && (forall k :: 0 <= k < |layers| ==> LayerFollows(steps, layers, k))
    && next == TotalSize(steps[..|layers|]) <= |supply|
    && AllIds(layers) == supply[..next]
  }

  lemma AllIdsExtends(layers: seq<seq<Node>>, layer: seq<Node>)
    ensures AllIds(layers + [layer]) == AllIds(layers) + Ids(layer)
  {
    assert (layers + [layer])[..|layers|] == layers;
  }

  lemma ExtendsChain(steps: seq<Step>, layers: seq<seq<Node>>, supply: seq<int>, next: nat, layer: seq<Node>)
    requires BuiltSoFar(steps, layers, supply, next) && |layers| < |steps|
    requires next + |Sigs(steps[|layers|])| <= |supply|
    requires Ids(layer) == supply[next..next + |Sigs(steps[|layers|])|]
    requires LayerFollows(steps, layers + [layer], |layers|)
    ensures BuiltSoFar(steps, layers + [layer], supply, next + |Sigs(steps[|layers|])|)
  {
    var n := |layers|;
    LayersKeep(steps, layers, layer);
    AllIdsExtends(layers, layer);
    assert steps[..n + 1][..n] == steps[..n];
    assert supply[..next] + supply[next..next + |Sigs(steps[n])|] == supply[..next + |Sigs(steps[n])|];
  }

  lemma NextLayerFollows(steps: seq<Step>, layers: seq<seq<Node>>, supply: seq<int>, next: nat,
                         layer: seq<Node>, prevIds: seq<int>, mode: Option<Pass>)
    requires BuiltSoFar(steps, layers, supply, next) && |layers| < |steps|
    requires prevIds == if layers == [] then [] else Ids(layers[|layers| - 1])
    requires mode == if prevIds == [] then None
                     else Some(if steps[|layers| - 1].Single? then PassSingle else PassList)
    requires IsLayer(Sigs(steps[|layers|]), layer, prevIds, mode)
    ensures LayerFollows(steps, layers + [layer], |layers|)
  {
    if layers != [] {
      assert LayerFollows(steps, layers, |layers| - 1);
      assert mode == PassFrom(steps[|layers| - 1]);
    }
  }

  lemma RoomForStep(steps: seq<Step>, n: nat)
    requires n < |steps|
    ensures TotalSize(steps[..n]) + |Sigs(steps[n])| <= TotalSize(steps)
  {
    TotalSizeMonotone(steps, n + 1);
    assert steps[..n + 1][..n] == steps[..n];
  }

  /** `chain.apply_async`: the loop that threads `prev_ids` and `prev_single` through the steps. */
  method ApplyChain(steps: seq<Step>, supply: seq<int>) returns (layers: seq<seq<Node>>)
    requires steps != [] && TotalSize(steps) == |supply|
    ensures Built(steps, layers)
    ensures AllIds(layers) == supply
  {
    var prevIds: seq<int> := [];
    var prevSingle := false;
    var next: nat := 0;
    layers := [];
    for n := 0 to |steps|
      invariant |layers| == n && BuiltSoFar(steps, layers, supply, next)
      invariant prevIds == (if n == 0 then [] else Ids(layers[n - 1]))
      invariant n > 0 ==> prevSingle == steps[n - 1].Single?
    {
      var mode := if prevIds == [] then None else Some(if prevSingle then PassSingle else PassList);
      var sigs := Sigs(steps[n]);
      RoomForStep(steps, n);
      var layer := EnqueueStep(sigs, supply[next..next + |sigs|], prevIds, mode);
      NextLayerFollows(steps, layers, supply, next, layer, prevIds, mode);
      ExtendsChain(steps, layers, supply, next, layer);
      layers := layers + [layer];
      prevIds, prevSingle, next := Ids(layer), steps[n].Single?, next + |sigs|;
    }
    assert steps[..|steps|] == steps && supply[..|supply|] == supply;
  }

  /** A chord is the graph of the chain of its header group and its body, for every header that is
      not empty. An empty header leaves the body without dependencies but still expecting a list. */
  method ApplyChord(header: seq<Signature>, body: Signature, supply: seq<int>) returns (headers: seq<Node>, last: Node)
    requires |supply| == |header| + 1
    ensures AllIds([headers, [last]]) == supply
    ensures Built([Many(header), Single(body)], [headers, [last]]) <==> header != [] || body.immutable
    ensures last.pass == (if body.immutable then None else Some(PassList)) && last.deps == Ids(headers)
    ensures forall i :: 0 <= i < |headers| ==> headers[i].deps == [] && headers[i].pass == None
  {
    var n := |header|;
    headers := EnqueueStep(header, supply[..n], [], None);
    var lasts := EnqueueStep([body], supply[n..], supply[..n], Some(PassList));
    last := lasts[0];
    var layers := [headers, [last]];
    assert lasts == [last];
    assert layers[..1] == [headers] && [headers][..0] == [];
    assert AllIds([headers]) == AllIds([]) + Ids(headers);
    var steps := [Many(header), Single(body)];
    assert LayerFollows(steps, layers, 0);
    assert LayerFollows(steps, layers, 1) <==> header != [] || body.immutable by {
      assert Sigs(steps[1]) == [body];
    }
  }

  // ---------------------------------------------------------------------------------
  // When a step depends, directly or not, on an earlier one
  // ---------------------------------------------------------------------------------

  ghost predicate DependsDirectly(layers: seq<seq<Node>>, k: int, b: int, c: int) {
    1 <= k < |layers| && 0 <= b < |layers[k]| && 0 <= c < |layers[k - 1]| && layers[k - 1][c].id in layers[k][b].deps
  }

  /** Job `a` of layer `m` is reached from job `b` of layer `k` along dependencies. */
  ghost predicate DependsOn(layers: seq<seq<Node>>, k: int, b: int, m: int, a: int)
    decreases k
  {
    if k <= m then k == m && a == b
    else exists c :: DependsDirectly(layers, k, b, c) && DependsOn(layers, k - 1, c, m, a)
  }

  lemma DependsOnLayerBefore(steps: seq<Step>, layers: seq<seq<Node>>, k: int, b: int, c: int)
    requires Built(steps, layers) && 1 <= k < |steps|
    requires 0 <= b < |layers[k]| && 0 <= c < |layers[k - 1]|
    ensures DependsDirectly(layers, k, b, c)
  {
    assert LayerFollows(steps, layers, k);
    assert layers[k][b].deps == Ids(layers[k - 1]);
    assert Ids(layers[k - 1])[c] == layers[k - 1][c].id;
  }

  /** No step strictly between two steps is an empty group. */
  predicate NoEmptyGroupBetween(steps: seq<Step>, m: int, k: int)
    requires 0 <= m && k <= |steps|
  {
    forall j :: m < j < k ==> Sigs(steps[j]) != []
  }

  /** Every job of a later step depends on every job of an earlier one exactly when no group
      between them is empty; an empty group drops the link. */
  lemma {:induction false} LinkedExactlyWithoutEmptyGroup(steps: seq<Step>, layers: seq<seq<Node>>, m: int, k: int, a: int, b: int)
    requires Built(steps, layers) && 0 <= m < k < |steps|
    requires 0 <= a < |layers[m]| && 0 <= b < |layers[k]|
    ensures DependsOn(layers, k, b, m, a) <==> NoEmptyGroupBetween(steps, m, k)
    decreases k, 1
  {
    if k - 1 == m {
      DependsOnLayerBefore(steps, layers, k, b, a);
      assert DependsOn(layers, m, a, m, a);
    } else {
      assert LayerFollows(steps, layers, k - 1);
      if layers[k - 1] == [] {
        assert !NoEmptyGroupBetween(steps, m, k);
      } else {
        LinkedThroughLayer(steps, layers, m, k, a, b);
      }
    }
  }

  lemma {:induction false} LinkedThroughLayer(steps: seq<Step>, layers: seq<seq<Node>>, m: int, k: int, a: int, b: int)
    requires Built(steps, layers) && 0 <= m < k - 1 && k < |steps| && layers[k - 1] != []
    requires 0 <= a < |layers[m]| && 0 <= b < |layers[k]|
    ensures DependsOn(layers, k, b, m, a) <==> NoEmptyGroupBetween(steps, m, k)
    decreases k, 0
  {
    assert LayerFollows(steps, layers, k - 1);
    assert NoEmptyGroupBetween(steps, m, k) <==> NoEmptyGroupBetween(steps, m, k - 1);
    LinkedExactlyWithoutEmptyGroup(steps, layers, m, k - 1, a, 0);
    DependsOnLayerBefore(steps, layers, k, b, 0);
    if c :| DependsDirectly(layers, k, b, c) && DependsOn(layers, k - 1, c, m, a) {
      LinkedExactlyWithoutEmptyGroup(steps, layers, m, k - 1, a, c);
    }
  }
}
