/** The two rewriting passes of the optimizer (src/compiler/optimizer.rs) on sequences of nodes. */
module Rewrites {
  // What each pass puts at a node, why that never grows the graph, and when it keeps the meaning of
  // every node.

  import opened Options
  import opened Values
  import opened Nodes
  import opened Pipeline

  // ---- What the passes do to one node -------------------------------------------------------

  datatype Pass = Folding | Reducing

  /** What replaces a node: an operation and its inputs. */
  datatype Form = Form(op: NodeOp, inputs: seq<nat>)

  datatype Rule =
    | AddZeroRight | AddZeroLeft
    | SubtractZero | SubtractSelf
    | MultiplyOneRight | MultiplyOneLeft | MultiplyZero

  function ConstantAt(nodes: seq<Node>, id: nat): Option<Value> {
    if id < |nodes| then nodes[id].AsConstant() else None
  }

  /** The optimizer's own table of operations; it has to agree with the evaluator's. */
  function FoldBinary(h: Host, op: BinaryOp, l: Value, r: Value): Value {
    match op
    case Add => Values.Add(h, l, r)
    case Sub => Values.Subtract(h, l, r)
    case Mul => Values.Multiply(h, l, r)
    case Div => h.divide(l, r)
    case Mod => h.remainder(l, r)
    case BitAnd => h.bitAnd(l, r)
    case BitOr => h.bitOr(l, r)
    case BitXor => h.bitXor(l, r)
    case ShiftLeft => h.shiftLeft(l, r)
    case ShiftRight => h.shiftRight(l, r)
    case CompareEqual => Boolean(LooselyEqual(h, l, r))
    case CompareStrictEqual => Boolean(LooselyEqual(h, l, r))
    case CompareLessThan => Boolean(FloatLess(ToNumber(h, l), ToNumber(h, r)))
    case CompareGreaterThan => Boolean(FloatLess(ToNumber(h, r), ToNumber(h, l)))
    case CompareLessThanOrEqual => Boolean(FloatAtMost(ToNumber(h, l), ToNumber(h, r)))
    case CompareGreaterThanOrEqual => Boolean(FloatAtMost(ToNumber(h, r), ToNumber(h, l)))
  }

  function FoldUnary(h: Host, op: UnaryOp, v: Value): Value {
    match op
    case Negate => Number(FloatNegate(ToNumber(h, v)))
    case Not => Boolean(!ToBoolean(h, v))
  }

  /** The constant that folding computes for node `i`, if it folds it. */
  function FoldedConstant(h: Host, nodes: seq<Node>, i: nat): Option<Value>
    requires i < |nodes|
  {
    var node := nodes[i];
    if node.IsDead() || node.IsConstant() then None
    else if |node.inputs| == 1 && node.op.Unary? then
      var v := ConstantAt(nodes, node.inputs[0]);
      if v.Some? then Some(FoldUnary(h, node.op.unary, v.value)) else None
    else if |node.inputs| == 2 && node.op.Binary? then
      var l, r := ConstantAt(nodes, node.inputs[0]), ConstantAt(nodes, node.inputs[1]);
      if l.Some? && r.Some? then Some(FoldBinary(h, node.op.binary, l.value, r.value)) else None
    else None
  }

  predicate ConstantZeroAt(h: Host, nodes: seq<Node>, id: nat) {
    var c := ConstantAt(nodes, id);
    c.Some? && IsZero(ToNumber(h, c.value))
  }

  predicate ConstantOneAt(h: Host, nodes: seq<Node>, id: nat) {
    var c := ConstantAt(nodes, id);
    c.Some? && IsOne(ToNumber(h, c.value))
  }

  /** The algebraic rule that fires at node `i`, tried in the order of the source. */
  function FiringRule(h: Host, nodes: seq<Node>, i: nat): Option<Rule>
    requires i < |nodes|
  {
    var node := nodes[i];
    if node.IsDead() || node.IsConstant() || |node.inputs| != 2 || !node.op.Binary? then None
    else
      var left, right := node.inputs[0], node.inputs[1];
      match node.op.binary
      case Add =>
        if ConstantZeroAt(h, nodes, right) then Some(AddZeroRight)
        else if ConstantZeroAt(h, nodes, left) then Some(AddZeroLeft)
        else None
      case Sub =>
        if ConstantZeroAt(h, nodes, right) then Some(SubtractZero)
        else if left == right then Some(SubtractSelf)
        else None
      case Mul =>
        if ConstantOneAt(h, nodes, right) then Some(MultiplyOneRight)
        else if ConstantOneAt(h, nodes, left) then Some(MultiplyOneLeft)
        else if ConstantZeroAt(h, nodes, left) || ConstantZeroAt(h, nodes, right) then Some(MultiplyZero)
        else None
      case _ => None
  }

  function FormOf(nodes: seq<Node>, id: nat): Option<Form> {
    if id < |nodes| then Some(Form(nodes[id].op, nodes[id].inputs)) else None
  }

  /** What a rule puts at a node with inputs `left` and `right`. */
  function Reduct(nodes: seq<Node>, rule: Rule, left: nat, right: nat): Option<Form> {
    match rule
    case AddZeroRight => FormOf(nodes, left)
    case AddZeroLeft => FormOf(nodes, right)
    case SubtractZero => FormOf(nodes, left)
    case SubtractSelf => Some(Form(Constant(Smi(0)), []))
    case MultiplyOneRight => FormOf(nodes, left)
    case MultiplyOneLeft => FormOf(nodes, right)
    case MultiplyZero => Some(Form(Constant(Smi(0)), []))
  }

  /** What a pass puts at node `i`, if it rewrites it. */
  function RewriteOf(h: Host, pass: Pass, nodes: seq<Node>, i: nat): Option<Form>
    requires i < |nodes|
  {
    match pass
    case Folding =>
      var c := FoldedConstant(h, nodes, i);
      if c.Some? then Some(Form(Constant(c.value), [])) else None
    case Reducing =>
      var rule := FiringRule(h, nodes, i);
      if rule.Some? then Reduct(nodes, rule.value, nodes[i].inputs[0], nodes[i].inputs[1]) else None
  }

  function Put(nodes: seq<Node>, i: nat, form: Form): (r: seq<Node>)
    ensures |r| == |nodes|
  {
    Replace(nodes, i, form.op, form.inputs)
  }

  function RewriteAt(h: Host, pass: Pass, nodes: seq<Node>, i: nat): (r: seq<Node>)
    requires i < |nodes|
    ensures |r| == |nodes|
  {
    var form := RewriteOf(h, pass, nodes, i);
    if form.Some? then Put(nodes, i, form.value) else nodes
  }

  /** The nodes after a pass has visited ids below `n`, in increasing order. */
  function RunPass(h: Host, pass: Pass, nodes: seq<Node>, n: nat): (r: seq<Node>)
    requires n <= |nodes|
    ensures |r| == |nodes|
  {
    if n == 0 then nodes else RewriteAt(h, pass, RunPass(h, pass, nodes, n - 1), n - 1)
  }

  /** How many nodes below `n` the pass rewrites. */
  function PassCount(h: Host, pass: Pass, nodes: seq<Node>, n: nat): nat
    requires n <= |nodes|
  {
    if n == 0 then 0
    else
      PassCount(h, pass, nodes, n - 1)
      + (if RewriteOf(h, pass, RunPass(h, pass, nodes, n - 1), n - 1).Some? then 1 else 0)
  }

  // ---- Rewriting is well-founded ------------------------------------------------------------

  /** The length of the longest chain of data edges below a node. */
  ghost function Height(nodes: seq<Node>, id: nat): nat
    requires WellFormed(nodes) && id < |nodes|
    decreases id, 1, 0
  {
    assert NodeOk(nodes[id], id);
    if nodes[id].inputs == [] then 0 else 1 + MaxHeight(nodes, nodes[id].inputs, id)
  }

  ghost function MaxHeight(nodes: seq<Node>, ids: seq<nat>, bound: nat): nat
    requires WellFormed(nodes) && bound <= |nodes|
    requires forall k :: 0 <= k < |ids| ==> ids[k] < bound
    decreases bound, 0, |ids|
  {
    if ids == [] then 0
    else
      var first, rest := Height(nodes, ids[0]), MaxHeight(nodes, ids[1..], bound);
      if first > rest then first else rest
  }

  ghost function TotalHeight(nodes: seq<Node>, n: nat): nat
    requires WellFormed(nodes) && n <= |nodes|
  {
    if n == 0 then 0 else TotalHeight(nodes, n - 1) + Height(nodes, n - 1)
  }

  /** The height a node with this form would have. */
  ghost function FormHeight(nodes: seq<Node>, form: Form, bound: nat): nat
    requires WellFormed(nodes) && bound <= |nodes|
    requires forall k :: 0 <= k < |form.inputs| ==> form.inputs[k] < bound
  {
    if form.inputs == [] then 0 else 1 + MaxHeight(nodes, form.inputs, bound)
  }

  /** A form fit to replace node `i`. */
  ghost predicate Fits(nodes: seq<Node>, i: nat, form: Form)
    requires WellFormed(nodes) && i < |nodes|
  {
    && ArityOk(form.op, |form.inputs|)
    && (forall k :: 0 <= k < |form.inputs| ==> form.inputs[k] < i)
    && FormHeight(nodes, form, i) < Height(nodes, i)
  }

  lemma {:induction false} MaxHeightBounds(nodes: seq<Node>, ids: seq<nat>, bound: nat, k: nat)
    requires WellFormed(nodes) && bound <= |nodes| && k < |ids|
    requires forall j :: 0 <= j < |ids| ==> ids[j] < bound
    ensures Height(nodes, ids[k]) <= MaxHeight(nodes, ids, bound)
    decreases |ids|
  {
    if k > 0 { MaxHeightBounds(nodes, ids[1..], bound, k - 1); }
  }

  lemma {:induction false} MaxHeightIgnoresBound(nodes: seq<Node>, ids: seq<nat>, low: nat, high: nat)
    requires WellFormed(nodes) && low <= high <= |nodes|
    requires forall j :: 0 <= j < |ids| ==> ids[j] < low
    ensures MaxHeight(nodes, ids, low) == MaxHeight(nodes, ids, high)
    decreases |ids|
  {
    if ids != [] { MaxHeightIgnoresBound(nodes, ids[1..], low, high); }
  }

  /** Every rewrite replaces a node by something strictly lower. */
  lemma RewriteFits(h: Host, pass: Pass, nodes: seq<Node>, i: nat)
    requires WellFormed(nodes) && i < |nodes|
    requires RewriteOf(h, pass, nodes, i).Some?
    ensures Fits(nodes, i, RewriteOf(h, pass, nodes, i).value)
  {
    var form := RewriteOf(h, pass, nodes, i).value;
    assert NodeOk(nodes[i], i);
    if pass == Reducing && form != Form(Constant(Smi(0)), []) {
      var k := if FormOf(nodes, nodes[i].inputs[0]) == Some(form) then 0 else 1;
      CopyFits(nodes, i, k);
    }
  }

  lemma CopyFits(nodes: seq<Node>, i: nat, k: nat)
    requires WellFormed(nodes) && i < |nodes| && k < |nodes[i].inputs|
    ensures nodes[i].inputs[k] < i
    ensures Fits(nodes, i, Form(nodes[nodes[i].inputs[k]].op, nodes[nodes[i].inputs[k]].inputs))
  {
    assert NodeOk(nodes[i], i);
    var source := nodes[i].inputs[k];
    assert NodeOk(nodes[source], source);
    MaxHeightIgnoresBound(nodes, nodes[source].inputs, source, i);
    MaxHeightBounds(nodes, nodes[i].inputs, i, k);
  }

  lemma PutKeepsWellFormed(nodes: seq<Node>, i: nat, form: Form)
    requires WellFormed(nodes) && i < |nodes| && Fits(nodes, i, form)
    ensures WellFormed(Put(nodes, i, form))
  {
    var after := Put(nodes, i, form);
    forall j | 0 <= j < |after| ensures NodeOk(after[j], j) {
      assert NodeOk(nodes[j], j);
    }
  }

  /** Replacing a node by a lower one raises no height. */
  lemma {:induction false} PutLowers(nodes: seq<Node>, i: nat, form: Form, id: nat)
    requires WellFormed(nodes) && i < |nodes| && Fits(nodes, i, form)
    requires WellFormed(Put(nodes, i, form)) && id < |nodes|
    ensures Height(Put(nodes, i, form), id) <= Height(nodes, id)
    ensures id == i ==> Height(Put(nodes, i, form), id) < Height(nodes, id)
    decreases id, 1, 0
  {
    var after := Put(nodes, i, form);
    assert NodeOk(after[id], id) && NodeOk(nodes[id], id);
    PutLowersAll(nodes, i, form, after[id].inputs, id);
  }

  lemma {:induction false} PutLowersAll(nodes: seq<Node>, i: nat, form: Form, ids: seq<nat>, bound: nat)
    requires WellFormed(nodes) && i < |nodes| && Fits(nodes, i, form)
    requires WellFormed(Put(nodes, i, form)) && bound <= |nodes|
    requires forall j :: 0 <= j < |ids| ==> ids[j] < bound
    ensures MaxHeight(Put(nodes, i, form), ids, bound) <= MaxHeight(nodes, ids, bound)
    decreases bound, 0, |ids|
  {
    if ids != [] {
      PutLowers(nodes, i, form, ids[0]);
      PutLowersAll(nodes, i, form, ids[1..], bound);
    }
  }

  lemma {:induction false} PutLowersTotal(nodes: seq<Node>, i: nat, form: Form, n: nat)
    requires WellFormed(nodes) && i < |nodes| && Fits(nodes, i, form)
    requires WellFormed(Put(nodes, i, form)) && n <= |nodes|
    ensures TotalHeight(Put(nodes, i, form), n) + (if i < n then 1 else 0) <= TotalHeight(nodes, n)
  {
    if n > 0 {
      PutLowersTotal(nodes, i, form, n - 1);
      PutLowers(nodes, i, form, n - 1);
    }
  }

  /** A pass keeps the graph well formed and pays for each rewrite with one unit of total height. */
  lemma {:induction false} PassLowers(h: Host, pass: Pass, nodes: seq<Node>, n: nat)
    requires WellFormed(nodes) && n <= |nodes|
    ensures WellFormed(RunPass(h, pass, nodes, n))
    ensures TotalHeight(RunPass(h, pass, nodes, n), |nodes|) + PassCount(h, pass, nodes, n)
         <= TotalHeight(nodes, |nodes|)
  {
    hide RewriteAt, RewriteOf, TotalHeight, WellFormed;
    if n > 0 {
      PassLowers(h, pass, nodes, n - 1);
      RewriteLowers(h, pass, RunPass(h, pass, nodes, n - 1), n - 1);
    }
  }

  lemma RewriteLowers(h: Host, pass: Pass, nodes: seq<Node>, i: nat)
    requires WellFormed(nodes) && i < |nodes|
    ensures WellFormed(RewriteAt(h, pass, nodes, i))
    ensures TotalHeight(RewriteAt(h, pass, nodes, i), |nodes|) + (if RewriteOf(h, pass, nodes, i).Some? then 1 else 0)
         <= TotalHeight(nodes, |nodes|)
  {
    var form := RewriteOf(h, pass, nodes, i);
    if form.Some? {
      RewriteFits(h, pass, nodes, i);
      PutKeepsWellFormed(nodes, i, form.value);
      PutLowersTotal(nodes, i, form.value, |nodes|);
    }
  }

  /** A pass that counts nothing has changed nothing and finds nothing to rewrite. */
  lemma {:induction false} IdlePass(h: Host, pass: Pass, nodes: seq<Node>, n: nat)
    requires n <= |nodes|
    ensures PassCount(h, pass, nodes, n) == 0 <==> forall i :: 0 <= i < n ==> RewriteOf(h, pass, nodes, i).None?
    ensures PassCount(h, pass, nodes, n) == 0 ==> RunPass(h, pass, nodes, n) == nodes
  {
    if n > 0 {
      IdlePass(h, pass, nodes, n - 1);
    }
  }

  /** Return nodes are never rewritten. */
  lemma {:induction false} PassKeepsReturnNodes(h: Host, pass: Pass, nodes: seq<Node>, n: nat, id: nat)
    requires n <= |nodes| && id < |nodes| && nodes[id].op.Return?
    ensures RunPass(h, pass, nodes, n)[id] == nodes[id]
  {
    if n > 0 { PassKeepsReturnNodes(h, pass, nodes, n - 1, id); }
  }

  // ---- Rewriting keeps meanings -------------------------------------------------------------

  /** Node `id` is a constant, or the two passes could make it one: folding needs all its inputs
      constant, `x - x` needs none, `x * 0` needs one. No rewrite makes this true of a node. */
  ghost predicate CanBeConstant(nodes: seq<Node>, id: nat)
    requires WellFormed(nodes) && id < |nodes|
    decreases id
  {
    var node := nodes[id];
    assert NodeOk(node, id);
    match node.op
    case Constant(_) => true
    case Unary(_) => CanBeConstant(nodes, node.inputs[0])
    case Binary(op) =>
      var left, right := node.inputs[0], node.inputs[1];
      || (CanBeConstant(nodes, left) && CanBeConstant(nodes, right))
      || (op == Sub && left == right)
      || (op == Mul && (CanBeConstant(nodes, left) || CanBeConstant(nodes, right)))
    case _ => false
  }

  /** What a rule can see of two operands: which of them can become constants, and whether they are
      one node. */
  datatype Sight = Sight(left: bool, right: bool, same: bool)

  ghost function Seen(nodes: seq<Node>, left: nat, right: nat): Sight
    requires WellFormed(nodes) && left < |nodes| && right < |nodes|
  {
    Sight(CanBeConstant(nodes, left), CanBeConstant(nodes, right), left == right)
  }

  /** A rule may fire on operands with these values: a zero or a one has to be, or to become, a
      constant of the graph. */
  predicate MayFire(h: Host, rule: Rule, op: BinaryOp, l: Value, r: Value, sight: Sight) {
    match rule
    case AddZeroRight => op == BinaryOp.Add && sight.right && IsZero(ToNumber(h, r))
    case AddZeroLeft => op == BinaryOp.Add && sight.left && IsZero(ToNumber(h, l))
    case SubtractZero => op == Sub && sight.right && IsZero(ToNumber(h, r))
    case SubtractSelf => op == Sub && sight.same
    case MultiplyOneRight => op == Mul && sight.right && IsOne(ToNumber(h, r))
    case MultiplyOneLeft => op == Mul && sight.left && IsOne(ToNumber(h, l))
    case MultiplyZero =>
      op == Mul && ((sight.left && IsZero(ToNumber(h, l))) || (sight.right && IsZero(ToNumber(h, r))))
  }

  /** The operand values on which a rule that may fire is exact. */
  predicate Exact(h: Host, rule: Rule, l: Value, r: Value) {
    match rule
    case AddZeroRight => AddingZeroKeeps(h, l, r)
    case AddZeroLeft => AddingZeroKeeps(h, r, l)
    case SubtractZero => SubtractingZeroKeeps(h, l, r)
    case SubtractSelf => l.Smi?
    case MultiplyOneRight => MultiplyingByOneKeeps(l, r)
    case MultiplyOneLeft => MultiplyingByOneKeeps(r, l)
    case MultiplyZero => l.Smi? && r.Smi?
  }

  /** The value a rule lets an operation on `l` and `r` have. */
  function ReductValue(rule: Rule, l: Value, r: Value): Value {
    match rule
    case AddZeroRight => l
    case AddZeroLeft => r
    case SubtractZero => l
    case SubtractSelf => Smi(0)
    case MultiplyOneRight => l
    case MultiplyOneLeft => r
    case MultiplyZero => Smi(0)
  }

  /** No rule that may fire on these operands changes the result. */
  ghost predicate OperandsSafe(h: Host, op: BinaryOp, l: Value, r: Value, sight: Sight) {
    forall rule :: MayFire(h, rule, op, l, r, sight) ==> Exact(h, rule, l, r)
  }

  /** Every binary operation that node `id` depends on, itself included, has safe operands. */
  ghost predicate Safe(h: Host, nodes: seq<Node>, args: seq<Value>, id: nat)
    requires WellFormed(nodes) && id < |nodes|
    decreases id
  {
    var node := nodes[id];
    assert NodeOk(node, id);
    && (node.op.Binary? ==>
          OperandsSafe(h, node.op.binary, Meaning(h, nodes, args, node.inputs[0]),
                       Meaning(h, nodes, args, node.inputs[1]), Seen(nodes, node.inputs[0], node.inputs[1])))
    && (forall k :: 0 <= k < |node.inputs| ==> Safe(h, nodes, args, node.inputs[k]))
  }

  lemma OptimizerTableIsTheEvaluators(h: Host, binary: BinaryOp, unary: UnaryOp, l: Value, r: Value)
    ensures FoldBinary(h, binary, l, r) == EvaluateBinary(h, binary, l, r)
    ensures FoldUnary(h, unary, l) == EvaluateUnary(h, unary, l)
  {
  }

  /** A rule is exact on precisely the operands `Exact` names. */
  lemma RuleIsExactWhen(h: Host, rule: Rule, op: BinaryOp, l: Value, r: Value, sight: Sight)
    requires MayFire(h, rule, op, l, r, sight) && (sight.same ==> l == r)
    ensures EvaluateBinary(h, op, l, r) == ReductValue(rule, l, r) <==> Exact(h, rule, l, r)
  {
    match rule
    case AddZeroRight => AddZeroOnTheRight(h, l, r);
    case AddZeroLeft => AddZeroOnTheLeft(h, l, r);
    case SubtractZero => Values.SubtractZero(h, l, r);
    case SubtractSelf => SubtractItself(h, l);
    case MultiplyOneRight => MultiplyByOneOnTheRight(h, l, r);
    case MultiplyOneLeft => MultiplyByOneOnTheLeft(h, l, r);
    case MultiplyZero => MultiplyByZero(h, l, r);
  }

  /** Arithmetic on 32-bit integers is safe whatever the values. */
  lemma SmallIntegersAreSafe(h: Host, op: BinaryOp, l: Value, r: Value, sight: Sight)
    requires l.Smi? && r.Smi?
    ensures OperandsSafe(h, op, l, r, sight)
  {
  }

  /** Operations other than addition, subtraction and multiplication are never reduced. */
  lemma OtherOperationsAreSafe(h: Host, op: BinaryOp, l: Value, r: Value, sight: Sight)
    requires op != BinaryOp.Add && op != Sub && op != Mul
    ensures OperandsSafe(h, op, l, r, sight)
  {
  }

  /** Two nodes of one form, on inputs that agree, agree. */
  lemma SameForm(h: Host, nodes: seq<Node>, a: nat, other: seq<Node>, b: nat, args: seq<Value>)
    requires WellFormed(nodes) && WellFormed(other) && a < |nodes| && b < |other|
    requires nodes[a].op == other[b].op && nodes[a].inputs == other[b].inputs
    requires forall k :: 0 <= k < |nodes[a].inputs| ==>
      nodes[a].inputs[k] < |nodes| && nodes[a].inputs[k] < |other|
    requires forall k :: 0 <= k < |nodes[a].inputs| ==>
      && Meaning(h, nodes, args, nodes[a].inputs[k]) == Meaning(h, other, args, nodes[a].inputs[k])
      && CanBeConstant(nodes, nodes[a].inputs[k]) == CanBeConstant(other, nodes[a].inputs[k])
      && Safe(h, nodes, args, nodes[a].inputs[k]) == Safe(h, other, args, nodes[a].inputs[k])
    ensures Meaning(h, nodes, args, a) == Meaning(h, other, args, b)
    ensures CanBeConstant(nodes, a) <==> CanBeConstant(other, b)
    ensures Safe(h, nodes, args, a) <==> Safe(h, other, args, b)
  {
    assert NodeOk(nodes[a], a) && NodeOk(other[b], b);
  }

  /** The meaning and the safety of a node depend on the nodes up to it only. */
  lemma {:induction false} PrefixDecides(h: Host, nodes: seq<Node>, other: seq<Node>, args: seq<Value>, id: nat)
    requires WellFormed(nodes) && WellFormed(other) && id < |nodes| && id < |other|
    requires forall j :: 0 <= j <= id ==> nodes[j].op == other[j].op && nodes[j].inputs == other[j].inputs
    ensures Meaning(h, nodes, args, id) == Meaning(h, other, args, id)
    ensures CanBeConstant(nodes, id) <==> CanBeConstant(other, id)
    ensures Safe(h, nodes, args, id) <==> Safe(h, other, args, id)
  {
    var node := nodes[id];
    assert NodeOk(node, id);
    forall k | 0 <= k < |node.inputs|
      ensures Meaning(h, nodes, args, node.inputs[k]) == Meaning(h, other, args, node.inputs[k])
      ensures CanBeConstant(nodes, node.inputs[k]) <==> CanBeConstant(other, node.inputs[k])
      ensures Safe(h, nodes, args, node.inputs[k]) <==> Safe(h, other, args, node.inputs[k])
    {
      PrefixDecides(h, nodes, other, args, node.inputs[k]);
    }
    SameForm(h, nodes, id, other, id, args);
  }

  /** A node given the form of one of its inputs means what that input means. */
  lemma CopyMeans(h: Host, nodes: seq<Node>, args: seq<Value>, i: nat, k: nat)
    requires WellFormed(nodes) && i < |nodes| && k < |nodes[i].inputs|
    ensures nodes[i].inputs[k] < i
    ensures
      var source := nodes[i].inputs[k];
      var after := Put(nodes, i, Form(nodes[source].op, nodes[source].inputs));
      && WellFormed(after)
      && Meaning(h, after, args, i) == Meaning(h, nodes, args, source)
      && (CanBeConstant(nodes, source) <==> CanBeConstant(after, i))
      && (Safe(h, nodes, args, source) <==> Safe(h, after, args, i))
  {
    assert NodeOk(nodes[i], i);
    var source := nodes[i].inputs[k];
    var after := Put(nodes, i, Form(nodes[source].op, nodes[source].inputs));
    CopyFits(nodes, i, k);
    PutKeepsWellFormed(nodes, i, Form(nodes[source].op, nodes[source].inputs));
    assert NodeOk(nodes[source], source);
    forall j | 0 <= j < |nodes[source].inputs|
      ensures Meaning(h, nodes, args, nodes[source].inputs[j]) == Meaning(h, after, args, nodes[source].inputs[j])
      ensures CanBeConstant(nodes, nodes[source].inputs[j]) <==> CanBeConstant(after, nodes[source].inputs[j])
      ensures Safe(h, nodes, args, nodes[source].inputs[j]) <==> Safe(h, after, args, nodes[source].inputs[j])
    {
      PrefixDecides(h, nodes, after, args, nodes[source].inputs[j]);
    }
    SameForm(h, nodes, source, after, i, args);
  }

  /** A rule that fires may fire on the values its operands have at run time. */
  lemma FiringRuleMayFire(h: Host, nodes: seq<Node>, args: seq<Value>, i: nat)
    requires WellFormed(nodes) && i < |nodes| && FiringRule(h, nodes, i).Some?
    ensures nodes[i].inputs[0] < i && nodes[i].inputs[1] < i
    ensures MayFire(h, FiringRule(h, nodes, i).value, nodes[i].op.binary,
                    Meaning(h, nodes, args, nodes[i].inputs[0]), Meaning(h, nodes, args, nodes[i].inputs[1]),
                    Seen(nodes, nodes[i].inputs[0], nodes[i].inputs[1]))
  {
    assert NodeOk(nodes[i], i);
  }

  /** What a fired rule makes of its node: `ReductValue`, and nothing less safe than before. */
  lemma ReductMeans(h: Host, nodes: seq<Node>, args: seq<Value>, i: nat)
    requires WellFormed(nodes) && i < |nodes| && FiringRule(h, nodes, i).Some?
    ensures nodes[i].inputs[0] < i && nodes[i].inputs[1] < i
    ensures
      var after := RewriteAt(h, Reducing, nodes, i);
      && WellFormed(after)
      && Meaning(h, after, args, i)
           == ReductValue(FiringRule(h, nodes, i).value, Meaning(h, nodes, args, nodes[i].inputs[0]),
                          Meaning(h, nodes, args, nodes[i].inputs[1]))
      && (CanBeConstant(after, i) ==> CanBeConstant(nodes, i))
      && (Safe(h, nodes, args, i) ==> Safe(h, after, args, i))
  {
    assert NodeOk(nodes[i], i);
    var rule := FiringRule(h, nodes, i).value;
    var left, right := nodes[i].inputs[0], nodes[i].inputs[1];
    RewriteFits(h, Reducing, nodes, i);
    PutKeepsWellFormed(nodes, i, RewriteOf(h, Reducing, nodes, i).value);
    if rule == AddZeroRight || rule == Rule.SubtractZero || rule == MultiplyOneRight {
      CopyMeans(h, nodes, args, i, 0);
    } else if rule == AddZeroLeft || rule == MultiplyOneLeft {
      CopyMeans(h, nodes, args, i, 1);
    }
  }

  lemma FoldedCanBeConstant(h: Host, nodes: seq<Node>, i: nat)
    requires WellFormed(nodes) && i < |nodes| && FoldedConstant(h, nodes, i).Some?
    ensures CanBeConstant(nodes, i)
  {
    assert NodeOk(nodes[i], i);
    forall k | 0 <= k < |nodes[i].inputs| ensures CanBeConstant(nodes, nodes[i].inputs[k]) {
      assert ConstantAt(nodes, nodes[i].inputs[k]).Some?;
    }
  }

  /** One rewrite keeps the meaning of the node it rewrites, if the node was safe. */
  lemma RewriteMeans(h: Host, pass: Pass, nodes: seq<Node>, args: seq<Value>, i: nat)
    requires WellFormed(nodes) && i < |nodes|
    ensures
      var after := RewriteAt(h, pass, nodes, i);
      && WellFormed(after)
      && (CanBeConstant(after, i) ==> CanBeConstant(nodes, i))
      && (Safe(h, nodes, args, i) ==>
            Meaning(h, after, args, i) == Meaning(h, nodes, args, i) && Safe(h, after, args, i))
  {
    assert NodeOk(nodes[i], i);
    if RewriteOf(h, pass, nodes, i).Some? {
      RewriteFits(h, pass, nodes, i);
      PutKeepsWellFormed(nodes, i, RewriteOf(h, pass, nodes, i).value);
      if pass == Folding {
        FoldedCanBeConstant(h, nodes, i);
      } else {
        ReductMeans(h, nodes, args, i);
        FiringRuleMayFire(h, nodes, args, i);
        if Safe(h, nodes, args, i) {
          var l, r := Meaning(h, nodes, args, nodes[i].inputs[0]), Meaning(h, nodes, args, nodes[i].inputs[1]);
          RuleIsExactWhen(h, FiringRule(h, nodes, i).value, nodes[i].op.binary, l, r,
                          Seen(nodes, nodes[i].inputs[0], nodes[i].inputs[1]));
        }
      }
    }
  }

  /** Replacing one node by an equal-valued one keeps the value of every node. */
  lemma {:induction false} PutKeepsMeanings(h: Host, nodes: seq<Node>, after: seq<Node>, args: seq<Value>,
                                            i: nat, id: nat)
    requires WellFormed(nodes) && WellFormed(after) && |after| == |nodes| && i < |nodes| && id < |nodes|
    requires forall j :: 0 <= j < |nodes| && j != i ==> after[j] == nodes[j]
    requires Meaning(h, after, args, i) == Meaning(h, nodes, args, i)
    ensures Meaning(h, after, args, id) == Meaning(h, nodes, args, id)
  {
    if id != i {
      var node := nodes[id];
      assert NodeOk(node, id);
      forall k | 0 <= k < |node.inputs|
        ensures Meaning(h, after, args, node.inputs[k]) == Meaning(h, nodes, args, node.inputs[k])
      {
        PutKeepsMeanings(h, nodes, after, args, i, node.inputs[k]);
      }
    }
  }

  /** No rewrite adds to the nodes that can become constants. */
  lemma {:induction false} RewriteMakesNoCandidate(h: Host, pass: Pass, nodes: seq<Node>, args: seq<Value>, i: nat,
                                                   id: nat)
    requires WellFormed(nodes) && i < |nodes| && id < |nodes|
    requires WellFormed(RewriteAt(h, pass, nodes, i))
    ensures CanBeConstant(RewriteAt(h, pass, nodes, i), id) ==> CanBeConstant(nodes, id)
    decreases id
  {
    if id == i {
      RewriteMeans(h, pass, nodes, args, i);
    } else {
      var node := nodes[id];
      assert NodeOk(node, id);
      forall k | 0 <= k < |node.inputs|
        ensures CanBeConstant(RewriteAt(h, pass, nodes, i), node.inputs[k]) ==> CanBeConstant(nodes, node.inputs[k])
      {
        RewriteMakesNoCandidate(h, pass, nodes, args, i, node.inputs[k]);
      }
    }
  }

  /** Operands stay safe when fewer of them can become constants. */
  lemma FewerSightsAreSafe(h: Host, op: BinaryOp, l: Value, r: Value, sight: Sight, less: Sight)
    requires OperandsSafe(h, op, l, r, sight)
    requires (less.left ==> sight.left) && (less.right ==> sight.right) && less.same == sight.same
    ensures OperandsSafe(h, op, l, r, less)
  {
    forall rule | MayFire(h, rule, op, l, r, less) ensures Exact(h, rule, l, r) {
      assert MayFire(h, rule, op, l, r, sight);
    }
  }

  /** One rewrite keeps the meaning of every safe node, and safe nodes safe. */
  lemma {:induction false} RewriteKeepsSafeNodes(h: Host, pass: Pass, nodes: seq<Node>, args: seq<Value>, i: nat,
                                                 id: nat)
    requires WellFormed(nodes) && i < |nodes| && id < |nodes|
    requires WellFormed(RewriteAt(h, pass, nodes, i))
    requires Safe(h, nodes, args, id)
    ensures
      var after := RewriteAt(h, pass, nodes, i);
      Meaning(h, after, args, id) == Meaning(h, nodes, args, id) && Safe(h, after, args, id)
    decreases id
  {
    if id == i {
      RewriteMeans(h, pass, nodes, args, i);
    } else {
      var after := RewriteAt(h, pass, nodes, i);
      var node := nodes[id];
      assert NodeOk(node, id);
      forall k | 0 <= k < |node.inputs|
        ensures Meaning(h, after, args, node.inputs[k]) == Meaning(h, nodes, args, node.inputs[k])
        ensures CanBeConstant(after, node.inputs[k]) ==> CanBeConstant(nodes, node.inputs[k])
        ensures Safe(h, after, args, node.inputs[k])
      {
        RewriteKeepsSafeNodes(h, pass, nodes, args, i, node.inputs[k]);
        RewriteMakesNoCandidate(h, pass, nodes, args, i, node.inputs[k]);
      }
      if node.op.Binary? {
        FewerSightsAreSafe(h, node.op.binary, Meaning(h, nodes, args, node.inputs[0]),
                           Meaning(h, nodes, args, node.inputs[1]), Seen(nodes, node.inputs[0], node.inputs[1]),
                           Seen(after, node.inputs[0], node.inputs[1]));
      }
    }
  }

  /** An algebraic reduction keeps the meaning of all nodes exactly when its operands are exact
      for the rule; the premise on operand values cannot be dropped. */
  lemma ReductionKeepsAllMeaningsIff(h: Host, nodes: seq<Node>, args: seq<Value>, i: nat)
    requires WellFormed(nodes) && i < |nodes| && FiringRule(h, nodes, i).Some?
    ensures nodes[i].inputs[0] < i && nodes[i].inputs[1] < i
    ensures WellFormed(RewriteAt(h, Reducing, nodes, i))
    ensures
      (forall id :: 0 <= id < |nodes| ==>
         Meaning(h, RewriteAt(h, Reducing, nodes, i), args, id) == Meaning(h, nodes, args, id))
      <==>
      Exact(h, FiringRule(h, nodes, i).value, Meaning(h, nodes, args, nodes[i].inputs[0]),
            Meaning(h, nodes, args, nodes[i].inputs[1]))
  {
    var after := RewriteAt(h, Reducing, nodes, i);
    ReductMeans(h, nodes, args, i);
    FiringRuleMayFire(h, nodes, args, i);
    var l, r := Meaning(h, nodes, args, nodes[i].inputs[0]), Meaning(h, nodes, args, nodes[i].inputs[1]);
    RuleIsExactWhen(h, FiringRule(h, nodes, i).value, nodes[i].op.binary, l, r,
                    Seen(nodes, nodes[i].inputs[0], nodes[i].inputs[1]));
    if Meaning(h, after, args, i) == Meaning(h, nodes, args, i) {
      forall id | 0 <= id < |nodes| ensures Meaning(h, after, args, id) == Meaning(h, nodes, args, id) {
        PutKeepsMeanings(h, nodes, after, args, i, id);
      }
    }
  }

  /** Constant folding keeps every meaning, with no premise on the values at all. */
  lemma FoldKeepsAllMeanings(h: Host, nodes: seq<Node>, args: seq<Value>, i: nat, id: nat)
    requires WellFormed(nodes) && i < |nodes| && id < |nodes|
    ensures WellFormed(RewriteAt(h, Folding, nodes, i))
    ensures Meaning(h, RewriteAt(h, Folding, nodes, i), args, id) == Meaning(h, nodes, args, id)
  {
    var after := RewriteAt(h, Folding, nodes, i);
    assert NodeOk(nodes[i], i);
    if RewriteOf(h, Folding, nodes, i).Some? {
      RewriteFits(h, Folding, nodes, i);
      PutKeepsWellFormed(nodes, i, RewriteOf(h, Folding, nodes, i).value);
      PutKeepsMeanings(h, nodes, after, args, i, id);
    }
  }

  lemma {:induction false} PassKeepsSafeNodes(h: Host, pass: Pass, nodes: seq<Node>, args: seq<Value>, n: nat, id: nat)
    requires WellFormed(nodes) && n <= |nodes| && id < |nodes| && Safe(h, nodes, args, id)
    ensures WellFormed(RunPass(h, pass, nodes, n))
    ensures Meaning(h, RunPass(h, pass, nodes, n), args, id) == Meaning(h, nodes, args, id)
    ensures Safe(h, RunPass(h, pass, nodes, n), args, id)
  {
    if n > 0 {
      PassKeepsSafeNodes(h, pass, nodes, args, n - 1, id);
      var before := RunPass(h, pass, nodes, n - 1);
      RewriteMeans(h, pass, before, args, n - 1);
      RewriteKeepsSafeNodes(h, pass, before, args, n - 1, id);
    }
  }
}
