/** The 38 size classes of the PPMd sub-allocators: 1 to 128 units, in steps of 1, 2, 3 and 4. */
module SizeClasses {
  const NUM_INDEXES: nat := 38

  /** The units in a block of class `i`. */
  function I2U(i: nat): nat {
    if i < 4 then i + 1
    else if i < 8 then 4 + 2 * (i - 3)
    else if i < 12 then 12 + 3 * (i - 7)
    else 24 + 4 * (i - 11)
  }

  /** The class that serves `nu` units. */
  function U2I(nu: nat): nat
    requires 1 <= nu
  {
    if nu <= 4 then nu - 1
    else if nu <= 12 then 3 + (nu - 3) / 2
    else if nu <= 24 then 7 + (nu - 10) / 3
    else 11 + (nu - 21) / 4
  }

  /** The class chosen is the smallest one that is large enough. */
  lemma SmallestClass(nu: nat, i: nat)
    requires 1 <= nu <= 128 && i < NUM_INDEXES
    ensures U2I(nu) < NUM_INDEXES
    ensures nu <= I2U(i) <==> U2I(nu) <= i
  {
  }

  lemma ClassOfOwnSize(i: nat)
    requires i < NUM_INDEXES
    ensures 1 <= I2U(i) <= 128 && U2I(I2U(i)) == i
  {
  }

  /** A number of units that is no class size is one class smaller plus one of the four smallest classes. */
  lemma SplitRemainder(nu: nat)
    requires 1 <= nu <= 128 && I2U(U2I(nu)) != nu
    ensures var i := U2I(nu);
            1 <= i && I2U(i - 1) < nu && nu - I2U(i - 1) <= 3 && I2U(nu - I2U(i - 1) - 1) == nu - I2U(i - 1)
  {
  }

  lemma ClassStep(i: nat)
    requires i < NUM_INDEXES
    ensures I2U(i) == (if i == 0 then 0 else I2U(i - 1)) + (if i >= 12 then 4 else i / 4 + 1)
    ensures I2U(i) <= I2U(NUM_INDEXES - 1) == 128
  {
  }

  lemma ClassHere(i: nat, k: nat)
    requires i < NUM_INDEXES && (if i == 0 then 0 else I2U(i - 1)) <= k < I2U(i)
    ensures U2I(k + 1) == i
  {
    if i > 0 {
      ClassOfOwnSize(i - 1);
    }
  }

  /** The table loop of Construct: each class takes `step` entries of the unit table. */
  method Construct() returns (units2Indx: array<nat>, indx2Units: array<nat>)
    ensures units2Indx.Length == 128 && indx2Units.Length == NUM_INDEXES
    ensures forall nu :: 1 <= nu <= 128 ==> units2Indx[nu - 1] == U2I(nu)
    ensures forall i :: 0 <= i < NUM_INDEXES ==> indx2Units[i] == I2U(i)
  {
    hide U2I;
    hide I2U;
    units2Indx := new nat[128](_ => 0);
    indx2Units := new nat[NUM_INDEXES](_ => 0);
    var i, k := 0, 0;
    ClassStep(37);
    while i < NUM_INDEXES
      invariant 0 <= i <= NUM_INDEXES
      invariant k == if i == 0 then 0 else I2U(i - 1)
      invariant forall nu :: 1 <= nu <= k ==> nu <= 128 && units2Indx[nu - 1] == U2I(nu)
      invariant forall j :: 0 <= j < i ==> indx2Units[j] == I2U(j)
    {
      var step := if i >= 12 then 4 else i / 4 + 1;
      ghost var last := k + step;
      ClassStep(i);
      while step != 0
        invariant 0 <= step && k + step == last && (if i == 0 then 0 else I2U(i - 1)) <= k
        invariant forall nu :: 1 <= nu <= k ==> units2Indx[nu - 1] == U2I(nu)
        invariant forall j :: 0 <= j < i ==> indx2Units[j] == I2U(j)
      {
        ClassHere(i, k);
        units2Indx[k] := i;
        k := k + 1;
        step := step - 1;
      }
      indx2Units[i] := k;
      i := i + 1;
    }
  }
}
