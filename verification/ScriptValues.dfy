/** Values of the scripting language: tables as the interpreter holds them, and what they mean. */
module ScriptValues {
  import opened Bytes

  /** What may be a table key; NaN, nil and tables as keys are not part of this model. */
  datatype Scalar = Bool(b: bool) | Int(i: i64) | Str(s: seq<byte>)

  /** A value as the interpreter holds it: a table's pairs in the order it iterates, and the border that
      its length operator reports. */
  datatype Held = Nil | One(x: Scalar) | Table(pairs: seq<(Scalar, Held)>, border: nat)

  /** A value as a script tells it from others: a table is what it maps its keys to. */
  datatype Value = VNil | VOne(x: Scalar) | VTable(entries: map<Scalar, Value>)

  predicate HasKey(pairs: seq<(Scalar, Held)>, k: Scalar) {
    exists j :: 0 <= j < |pairs| && pairs[j].0 == k
  }

  predicate DistinctKeys(pairs: seq<(Scalar, Held)>) {
    forall i, j :: 0 <= i < j < |pairs| ==> pairs[i].0 != pairs[j].0
  }

  const I64_LIMIT := 0x8000_0000_0000_0000

  /** Any border will do: a table with holes may report one of several. */
  predicate IsBorder(pairs: seq<(Scalar, Held)>, n: nat) {
    n < I64_LIMIT - 1 && (n == 0 || HasKey(pairs, Int(n))) && !HasKey(pairs, Int(n + 1))
  }

  // ------------------------------------------------------------------- meanings

  function Meaning(h: Held): Value
    decreases h, 1, 0
  {
    match h
    case Nil => VNil
    case One(x) => VOne(x)
    case Table(pairs, _) => VTable(MeaningTo(h, |pairs|))
  }

  /** The first `n` pairs set one after another. */
  function MeaningTo(h: Held, n: nat): map<Scalar, Value>
    requires h.Table? && n <= |h.pairs|
    decreases h, 0, n
  {
    if n == 0 then map[] else MeaningTo(h, n - 1)[h.pairs[n - 1].0 := Meaning(h.pairs[n - 1].1)]
  }

  /** Setting the pairs in any order sets each key to its own value. */
  lemma {:induction false} MeaningAt(h: Held, n: nat)
    requires h.Table? && DistinctKeys(h.pairs) && n <= |h.pairs|
    ensures forall k :: k in MeaningTo(h, n) <==> exists j :: 0 <= j < n && h.pairs[j].0 == k
    ensures forall j :: 0 <= j < n ==> MeaningTo(h, n)[h.pairs[j].0] == Meaning(h.pairs[j].1)
    decreases n
  {
    hide Meaning;
    if n > 0 {
      MeaningAt(h, n - 1);
    }
  }

  lemma NotNil(h: Held)
    requires !h.Nil?
    ensures !Meaning(h).VNil?
  {}

  // ------------------------------------------------------------ arrays and borders

  /** A table goes out as an array when its keys are exactly 1 up to its border. */
  predicate IsArray(pairs: seq<(Scalar, Held)>, border: nat) {
    && (forall j :: 0 <= j < |pairs| ==> pairs[j].0.Int? && 1 <= pairs[j].0.i <= border)
    && |pairs| == border
  }

  function Place(pairs: seq<(Scalar, Held)>, k: Scalar): (j: nat)
    requires HasKey(pairs, k)
    ensures j < |pairs| && pairs[j].0 == k
  {
    if pairs[0].0 == k then 0
    else
      var j0 :| 0 <= j0 < |pairs| && pairs[j0].0 == k;
      assert pairs[1..][j0 - 1].0 == k;
      1 + Place(pairs[1..], k)
  }

  function KeyInts(pairs: seq<(Scalar, Held)>): set<int> {
    set p | p in pairs && p.0.Int? :: p.0.i
  }

  lemma {:induction false} KeyIntsSize(pairs: seq<(Scalar, Held)>)
    requires DistinctKeys(pairs) && forall j :: 0 <= j < |pairs| ==> pairs[j].0.Int?
    ensures |KeyInts(pairs)| == |pairs|
  {
    hide KeyInts;
    if pairs == [] {
      NoKeyInts();
    } else {
      var most := pairs[..|pairs| - 1];
      KeyIntsSize(most);
      LastKeyInt(pairs);
    }
  }

  lemma NoKeyInts()
    ensures KeyInts([]) == {}
  {}

  lemma LastKeyInt(pairs: seq<(Scalar, Held)>)
    requires DistinctKeys(pairs) && pairs != [] && forall j :: 0 <= j < |pairs| ==> pairs[j].0.Int?
    ensures var most, last := pairs[..|pairs| - 1], pairs[|pairs| - 1];
            KeyInts(pairs) == KeyInts(most) + {last.0.i} && last.0.i !in KeyInts(most)
  {
    var most, last := pairs[..|pairs| - 1], pairs[|pairs| - 1];
    assert pairs == most + [last];
    forall p | p in most
      ensures p.0 != last.0
    {
      var j :| 0 <= j < |most| && most[j] == p;
      assert pairs[j] == p;
    }
  }

  function UpTo(n: nat): (s: set<int>)
    ensures |s| == n && forall i :: i in s <==> 1 <= i <= n
  {
    if n == 0 then {} else UpTo(n - 1) + {n}
  }

  lemma FullSubset(a: set<int>, b: set<int>)
    requires a <= b && |a| == |b|
    ensures a == b
  {
    assert |b - a| == |b| - |a|;
  }

  /** `n` distinct keys between 1 and `n` are all of them. */
  lemma ArrayHasAll(pairs: seq<(Scalar, Held)>, n: nat, i: nat)
    requires DistinctKeys(pairs) && IsArray(pairs, n) && 1 <= i <= n && n < I64_LIMIT
    ensures HasKey(pairs, Int(i))
  {
    KeyIntsSize(pairs);
    FullSubset(KeyInts(pairs), UpTo(n));
    assert i in KeyInts(pairs);
    var p :| p in pairs && p.0.Int? && p.0.i == i;
    var j :| 0 <= j < |pairs| && pairs[j] == p;
    assert pairs[j].0 == Int(i);
  }

  /** A table goes out as an array exactly when the integers from 1 to its border are its keys. */
  lemma ArraysAre(pairs: seq<(Scalar, Held)>, border: nat)
    requires DistinctKeys(pairs) && border < I64_LIMIT
    ensures IsArray(pairs, border) <==> forall k :: HasKey(pairs, k) <==> k.Int? && 1 <= k.i <= border
  {
    if IsArray(pairs, border) {
      forall k: Scalar | k.Int? && 1 <= k.i <= border
        ensures HasKey(pairs, k)
      {
        ArrayHasAll(pairs, border, k.i);
      }
    } else if forall k :: HasKey(pairs, k) <==> k.Int? && 1 <= k.i <= border {
      AsManyKeys(pairs, border);
    }
  }

  lemma AsManyKeys(pairs: seq<(Scalar, Held)>, border: nat)
    requires DistinctKeys(pairs) && border < I64_LIMIT
    requires forall k :: HasKey(pairs, k) <==> k.Int? && 1 <= k.i <= border
    ensures IsArray(pairs, border)
  {
    forall j | 0 <= j < |pairs|
      ensures pairs[j].0.Int? && 1 <= pairs[j].0.i <= border
    {
      assert HasKey(pairs, pairs[j].0);
    }
    KeyIntsSize(pairs);
    forall i | 1 <= i <= border
      ensures i in KeyInts(pairs)
    {
      assert HasKey(pairs, Int(i));
    }
    assert KeyInts(pairs) == UpTo(border);
  }

  /** Whether a table goes out as an array does not depend on which border the runtime reports. */
  lemma BorderIrrelevant(pairs: seq<(Scalar, Held)>, a: nat, b: nat)
    requires DistinctKeys(pairs) && IsBorder(pairs, a) && IsBorder(pairs, b) && IsArray(pairs, a)
    ensures b == a
  {
    if b < a {
      ArrayHasAll(pairs, a, b + 1);
    }
  }

  /** A table whose keys are exactly 1 up to its border. */
  predicate ArrayShaped(h: Held) {
    h.Table? && DistinctKeys(h.pairs) && IsArray(h.pairs, h.border) && h.border < I64_LIMIT
  }

  /** Items 1 up to `n` set in order. */
  function ItemsTo(h: Held, n: nat): map<Scalar, Value>
    requires ArrayShaped(h) && n <= h.border
  {
    if n == 0 then map[]
    else
      ArrayHasAll(h.pairs, h.border, n);
      ItemsTo(h, n - 1)[Int(n) := Meaning(h.pairs[Place(h.pairs, Int(n))].1)]
  }

  lemma NoItems(h: Held)
    requires ArrayShaped(h)
    ensures ItemsTo(h, 0) == map[]
  {}

  lemma {:induction false} ItemsAt(h: Held, n: nat)
    requires ArrayShaped(h) && n <= h.border
    ensures forall k :: k in ItemsTo(h, n) <==> k.Int? && 1 <= k.i <= n
    ensures forall j :: 0 <= j < |h.pairs| && h.pairs[j].0.i <= n ==> ItemsTo(h, n)[h.pairs[j].0] == Meaning(h.pairs[j].1)
    decreases n
  {
    hide Meaning;
    if n > 0 {
      ItemsAt(h, n - 1);
      ArrayHasAll(h.pairs, h.border, n);
    }
  }

  lemma ItemsMeaning(h: Held)
    requires ArrayShaped(h)
    ensures ItemsTo(h, h.border) == MeaningTo(h, |h.pairs|)
  {
    hide Meaning, MeaningTo, ItemsTo;
    ItemsAt(h, h.border);
    MeaningAt(h, |h.pairs|);
    forall k: Scalar | k.Int? && 1 <= k.i <= h.border
      ensures exists j :: 0 <= j < |h.pairs| && h.pairs[j].0 == k
    {
      ArrayHasAll(h.pairs, h.border, k.i);
    }
  }
}
