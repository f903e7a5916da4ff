/**
 * Character edit scripts in the form `Levenshtein.editops(pred, gt)` returns
 * them, and the projection of per-character labels of the predicted text
 * onto the ground-truth text that the quotation evaluator performs with them.
 *
 * The script itself comes from a foreign library; the model takes it as an
 * input and states what it is assumed to satisfy (`ValidScript`).
 */
module EditScripts {
  import opened Wrappers

  datatype EditKind = Delete | Insert | Replace

  /** `(action, pos1, pos2)`: `srcPos` indexes the predicted text, `dstPos` the ground truth. */
  datatype EditOp = EditOp(kind: EditKind, srcPos: int, dstPos: int)

  predicate OpInRange(op: EditOp, srcLen: nat, dstLen: nat) {
    0 <= op.srcPos && 0 <= op.dstPos &&
    match op.kind
    case Delete => op.srcPos < srcLen && op.dstPos <= dstLen
    case Insert => op.srcPos <= srcLen && op.dstPos < dstLen
    case Replace => op.srcPos < srcLen && op.dstPos < dstLen
  }

  /**
   * Positions in range and source positions in order: an insertion may share
   * its source position with the operations after it, a deletion or a
   * replacement consumes its source character.
   */
  predicate WellFormedScript(ops: seq<EditOp>, srcLen: nat, dstLen: nat) {
    (forall i :: 0 <= i < |ops| ==> OpInRange(ops[i], srcLen, dstLen)) &&
    (forall i, j :: 0 <= i < j < |ops| ==>
       ops[i].srcPos <= ops[j].srcPos && (ops[i].kind != Insert ==> ops[i].srcPos < ops[j].srcPos))
  }

  function ReplayStep(s: string, op: EditOp, target: string): Option<string> {
    var p := op.srcPos;
    var d := op.dstPos;
    match op.kind
    case Delete => if 0 <= p < |s| then Some(s[..p] + s[p + 1..]) else None
    case Insert => if 0 <= p <= |s| && 0 <= d < |target| then Some(s[..p] + [target[d]] + s[p..]) else None
    case Replace => if 0 <= p < |s| && 0 <= d < |target| then Some(s[..p] + [target[d]] + s[p + 1..]) else None
  }

  /**
   * Applies a script to `s`, last operation first, so that every source
   * position still names the character it named in `s`.
   */
  function Replay(s: string, ops: seq<EditOp>, target: string): Option<string>
    decreases |ops|
  {
    if ops == [] then Some(s)
    else
      match ReplayStep(s, ops[|ops| - 1], target)
      case None => None
      case Some(t) => Replay(t, ops[..|ops| - 1], target)
  }

  /** What the model assumes of `Levenshtein.editops(pred, gt)`: well formed, and replaying it turns `pred` into `gt`. */
  predicate ValidScript(pred: string, gt: string, ops: seq<EditOp>) {
    WellFormedScript(ops, |pred|, |gt|) && Replay(pred, ops, gt) == Some(gt)
  }

  /** A NumPy position argument: a negative one counts from the end. */
  function NpIndex(p: int, n: nat): int {
    if p < 0 then p + n else p
  }

  /**
   * One step of the projection loop: `np.delete` drops the label at the
   * position, `np.insert` puts a 0 there, a replacement changes nothing. A
   * position outside the array is NumPy's `IndexError`.
   */
  function ProjectStep(labels: seq<int>, op: EditOp): Result<seq<int>, string> {
    var p := NpIndex(op.srcPos, |labels|);
    match op.kind
    case Delete => if 0 <= p < |labels| then Ok(labels[..p] + labels[p + 1..]) else Err("IndexError")
    case Insert => if 0 <= p <= |labels| then Ok(labels[..p] + [0] + labels[p..]) else Err("IndexError")
    case Replace => Ok(labels)
  }

  /** The labels after the whole script, replayed last operation first. */
  function Project(labels: seq<int>, ops: seq<EditOp>): Result<seq<int>, string>
    decreases |ops|
  {
    if ops == [] then Ok(labels)
    else
      match ProjectStep(labels, ops[|ops| - 1])
      case Err(e) => Err(e)
      case Ok(next) => Project(next, ops[..|ops| - 1])
  }

  /** Number of operations of one kind. */
  function CountKind(ops: seq<EditOp>, k: EditKind): nat {
    if ops == [] then 0
    else CountKind(ops[..|ops| - 1], k) + (if ops[|ops| - 1].kind == k then 1 else 0)
  }

  /**
   * The projection loop, run on the quote-id and the part-id arrays together.
   * Both arrays have the length of the predicted text.
   */
  method ExtendLabels(quotes: seq<int>, ids: seq<int>, ops: seq<EditOp>) returns (r: Result<(seq<int>, seq<int>), string>)
    requires |quotes| == |ids|
    ensures r.Ok? <==> Project(quotes, ops).Ok?
    ensures r.Ok? ==> Project(quotes, ops) == Ok(r.value.0) && Project(ids, ops) == Ok(r.value.1)
  {
    var q := quotes;
    var d := ids;
    var i := |ops|;
    assert ops[..i] == ops;
    while i > 0
      invariant 0 <= i <= |ops| && |q| == |d|
      invariant Project(quotes, ops) == Project(q, ops[..i])
      invariant Project(ids, ops) == Project(d, ops[..i])
    {
      i := i - 1;
      var op := ops[i];
      assert ops[..i + 1][..i] == ops[..i];
      var p := NpIndex(op.srcPos, |q|);
      if op.kind == Delete {
        if !(0 <= p < |q|) {
          return Err("IndexError");
        }
        q := q[..p] + q[p + 1..];
        d := d[..p] + d[p + 1..];
      } else if op.kind == Insert {
        if !(0 <= p <= |q|) {
          return Err("IndexError");
        }
        q := q[..p] + [0] + q[p..];
        d := d[..p] + [0] + d[p..];
      }
    }
    r := Ok((q, d));
  }

  /** The projected array is as long as the input, minus the deletions, plus the insertions. */
  lemma {:induction false} ProjectLength(labels: seq<int>, ops: seq<EditOp>)
    requires Project(labels, ops).Ok?
    ensures |Project(labels, ops).value| == |labels| - CountKind(ops, Delete) + CountKind(ops, Insert)
    decreases |ops|
  {
    if ops != [] {
      var next := ProjectStep(labels, ops[|ops| - 1]).value;
      ProjectLength(next, ops[..|ops| - 1]);
    }
  }

  /** Every projected label is an input label or a 0 that an insertion put there. */
  lemma {:induction false} ProjectValues(labels: seq<int>, ops: seq<EditOp>)
    requires Project(labels, ops).Ok?
    ensures forall x :: x in Project(labels, ops).value ==> x == 0 || x in labels
    decreases |ops|
  {
    if ops != [] {
      var next := ProjectStep(labels, ops[|ops| - 1]).value;
      ProjectValues(next, ops[..|ops| - 1]);
      assert forall x :: x in next ==> x == 0 || x in labels;
    }
  }

  /** A script of replacements only (the empty script included) leaves the labels as they are. */
  lemma {:induction false} ProjectReplaceOnly(labels: seq<int>, ops: seq<EditOp>)
    requires forall i :: 0 <= i < |ops| ==> ops[i].kind == Replace
    ensures Project(labels, ops) == Ok(labels)
    decreases |ops|
  {
    if ops != [] {
      ProjectReplaceOnly(labels, ops[..|ops| - 1]);
    }
  }

  lemma {:induction false} ProjectDefinedBelow(labels: seq<int>, ops: seq<EditOp>, bound: nat)
    requires bound <= |labels|
    requires forall i :: 0 <= i < |ops| ==>
      0 <= ops[i].srcPos && (if ops[i].kind == Insert then ops[i].srcPos <= bound else ops[i].srcPos < bound)
    requires forall i, j :: 0 <= i < j < |ops| ==>
      ops[i].srcPos <= ops[j].srcPos && (ops[i].kind != Insert ==> ops[i].srcPos < ops[j].srcPos)
    ensures Project(labels, ops).Ok?
    decreases |ops|
  {
    if ops != [] {
      var last := ops[|ops| - 1];
      var next := ProjectStep(labels, last).value;
      var rest := ops[..|ops| - 1];
      assert |next| >= last.srcPos;
      forall i | 0 <= i < |rest|
        ensures 0 <= rest[i].srcPos && (if rest[i].kind == Insert then rest[i].srcPos <= last.srcPos else rest[i].srcPos < last.srcPos)
      {
        assert rest[i] == ops[i];
      }
      ProjectDefinedBelow(next, rest, last.srcPos);
    }
  }

  /** On an array as long as the predicted text, a well-formed script never hits an `IndexError`. */
  lemma ProjectDefined(labels: seq<int>, ops: seq<EditOp>, dstLen: nat)
    requires WellFormedScript(ops, |labels|, dstLen)
    ensures Project(labels, ops).Ok?
  {
    ProjectDefinedBelow(labels, ops, |labels|);
  }

  /** Wherever replaying the script on a text succeeds, projecting labels of the same length succeeds with the same length. */
  lemma {:induction false} ProjectFollowsReplay(s: string, labels: seq<int>, ops: seq<EditOp>, target: string)
    requires |s| == |labels| && Replay(s, ops, target).Some?
    ensures Project(labels, ops).Ok?
    ensures |Project(labels, ops).value| == |Replay(s, ops, target).value|
    decreases |ops|
  {
    if ops != [] {
      var last := ops[|ops| - 1];
      var t := ReplayStep(s, last, target).value;
      var next := ProjectStep(labels, last).value;
      ProjectFollowsReplay(t, next, ops[..|ops| - 1], target);
    }
  }

  /** With a valid script, the projected labels line up with the ground-truth text. */
  lemma ValidScriptProjects(pred: string, gt: string, ops: seq<EditOp>, labels: seq<int>)
    requires ValidScript(pred, gt, ops) && |labels| == |pred|
    ensures Project(labels, ops).Ok?
    ensures |Project(labels, ops).value| == |gt|
    ensures |gt| == |pred| - CountKind(ops, Delete) + CountKind(ops, Insert)
  {
    ProjectFollowsReplay(pred, labels, ops, gt);
    ProjectLength(labels, ops);
  }
}
