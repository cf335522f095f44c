/**
 * The integer and selection logic around the network's outputs: the
 * maximum prototype distance, the per-prototype strongest class connection,
 * the prototype/class alignment check and the prediction verdict.
 * Weights and logits are modelled as integers: only their order matters.
 */
module Alignment {

  /** `prototype_shape`: (number of prototypes, channels, height, width). */
  datatype PrototypeShape = PrototypeShape(count: nat, channels: nat, height: nat, width: nat)

  /**
   * `max_dist`: the product of the channel, height and width dimensions,
   * the number of entries of one prototype.
   */
  function MaxDist(shape: PrototypeShape): (d: nat)
    ensures d == 0 <==> shape.channels == 0 || shape.height == 0 || shape.width == 0
    ensures d > 0 ==> d >= shape.channels && d >= shape.height && d >= shape.width
  {
    var ch := shape.channels * shape.height;
    ProductBounds(shape.channels, shape.height);
    ProductBounds(ch, shape.width);
    ch * shape.width
  }

  /** A product of naturals is zero exactly when a factor is, and otherwise at least each factor. */
  lemma ProductBounds(x: nat, y: nat)
    ensures x * y == 0 <==> x == 0 || y == 0
    ensures x * y > 0 ==> x * y >= x && x * y >= y
  {
    if x > 0 && y > 0 {
      assert x * y == x * (y - 1) + x;
      assert x * y == (x - 1) * y + y;
      assert x * (y - 1) >= 0 && (x - 1) * y >= 0;
    }
  }

  /**
   * `argmax` of a non-empty vector: the index of its first maximal entry.
   */
  function ArgMax(s: seq<int>): (m: nat)
    requires |s| > 0
    ensures m < |s|
    ensures forall j :: 0 <= j < |s| ==> s[j] <= s[m]
    ensures forall j :: 0 <= j < m ==> s[j] < s[m]
    decreases |s|
  {
    if |s| == 1 then 0
    else
      var m := ArgMax(s[..|s| - 1]);
      if s[|s| - 1] > s[m] then |s| - 1 else m
  }

  /** Every row of `w` has `cols` entries. */
  predicate IsMatrix(w: seq<seq<int>>, cols: nat) {
    forall r :: 0 <= r < |w| ==> |w[r]| == cols
  }

  /** Column `p` of a matrix. */
  function Column(w: seq<seq<int>>, cols: nat, p: nat): (col: seq<int>)
    requires IsMatrix(w, cols) && p < cols
    ensures |col| == |w|
    ensures forall c :: 0 <= c < |w| ==> col[c] == w[c][p]
  {
    seq(|w|, c requires 0 <= c < |w| => w[c][p])
  }

  /**
   * `argmax(last_layer.weight, dim=0)`: for every prototype (column of the
   * classes-by-prototypes weight matrix), the first class whose weight from
   * that prototype is largest.
   */
  function MaxConnection(weight: seq<seq<int>>, numPrototypes: nat): (conn: seq<nat>)
    requires |weight| > 0 && IsMatrix(weight, numPrototypes)
    ensures |conn| == numPrototypes
    ensures forall p :: 0 <= p < numPrototypes ==>
              && conn[p] < |weight|
              && (forall c :: 0 <= c < |weight| ==> weight[c][p] <= weight[conn[p]][p])
              && (forall c :: 0 <= c < conn[p] ==> weight[c][p] < weight[conn[p]][p])
  {
    seq(numPrototypes, p requires 0 <= p < numPrototypes => ArgMax(Column(weight, numPrototypes, p)))
  }

  /** `np.sum(a == b)`: the number of positions where the two vectors agree. */
  function MatchCount(a: seq<int>, b: seq<int>): (n: nat)
    requires |a| == |b|
    ensures n <= |a|
    ensures n == |a| <==> forall i :: 0 <= i < |a| ==> a[i] == b[i]
    decreases |a|
  {
    if a == [] then 0
    else
      var k := |a| - 1;
      var rest := MatchCount(a[..k], b[..k]);
      assert (forall i :: 0 <= i < |a| ==> a[i] == b[i])
             <==> (forall i :: 0 <= i < k ==> a[..k][i] == b[..k][i]) && a[k] == b[k];
      rest + (if a[k] == b[k] then 1 else 0)
  }

  /** The two messages of the alignment sanity check; the check logs exactly one. */
  datatype AlignmentMessage =
    | AllConnectStrongly      // "All prototypes connect strongly to their respective classes"
    | NotAllConnectStrongly   // "WARNING: Not all prototypes connect most strongly ..."

  /**
   * The alignment check: all-connect exactly when the number of prototypes
   * whose strongest connection is their assigned class equals the declared
   * number of prototypes.
   */
  function CheckAlignment(connection: seq<int>, identity: seq<int>, numPrototypes: nat): (msg: AlignmentMessage)
    requires |connection| == |identity|
    ensures numPrototypes == |identity| ==>
              (msg == AllConnectStrongly <==> forall i :: 0 <= i < |identity| ==> connection[i] == identity[i])
    ensures numPrototypes > |identity| ==> msg == NotAllConnectStrongly
  {
    if MatchCount(connection, identity) == numPrototypes then AllConnectStrongly else NotAllConnectStrongly
  }

  /** The logged verdict on the prediction. */
  datatype Verdict = Correct | Wrong

  /** The first maximal index of a vector is exactly the index with the two properties ArgMax promises. */
  lemma ArgMaxIs(s: seq<int>, m: nat)
    requires |s| > 0
    ensures ArgMax(s) == m <==>
              && m < |s|
              && (forall j :: 0 <= j < |s| ==> s[j] <= s[m])
              && (forall j :: 0 <= j < m ==> s[j] < s[m])
  {
  }

  /**
   * The verdict is Correct exactly when the label class is the first class
   * with the largest logit.
   */
  function Judge(logits: seq<int>, correctClass: nat): (v: Verdict)
    requires |logits| > 0
    ensures v == Correct <==>
              && correctClass < |logits|
              && (forall j :: 0 <= j < |logits| ==> logits[j] <= logits[correctClass])
              && (forall j :: 0 <= j < correctClass ==> logits[j] < logits[correctClass])
  {
    ArgMaxIs(logits, correctClass);
    if ArgMax(logits) == correctClass then Correct else Wrong
  }

  /** A label whose logit is strictly larger than every other is judged correct, any other label wrong. */
  lemma JudgeUniqueMaximum(logits: seq<int>, top: nat, labelClass: nat)
    requires top < |logits|
    requires forall j :: 0 <= j < |logits| && j != top ==> logits[j] < logits[top]
    ensures Judge(logits, labelClass) == Correct <==> labelClass == top
  {
    if labelClass != top && labelClass < |logits| {
      assert logits[labelClass] < logits[top];
    }
  }
}
