/**
 256-bit sign-magnitude integers as the balance cache stores them. Zero has two representations; an
 overflow of the 256-bit magnitude aborts the operation.
 */
module SignedMagnitude {
  import opened Results

  const LIMIT: nat := 0x1_0000_0000_0000_0000_0000_0000_0000_0000_0000_0000_0000_0000_0000_0000_0000_0000

  datatype I256 = I256(value: nat, negative: bool) {

    function Denotes(): int {
      if negative then -(value as int) else value
    }

    predicate Fits() {
      value < LIMIT
    }

    /** Not the negative zero. */
    predicate Canonical() {
      value == 0 ==> !negative
    }
  }

  function Magnitude(n: int): nat {
    if n < 0 then -n else n
  }

  /** `None` is the overflow abort of the magnitude addition. */
  function Add(x: I256, y: I256): Option<I256> {
    if x.value == 0 && y.value == 0 && x.negative && y.negative then Some(I256(0, false))
    else if x.negative == y.negative then
      if x.value + y.value < LIMIT then Some(I256(x.value + y.value, x.negative)) else None
    else if x.value > y.value then Some(I256(x.value - y.value, x.negative))
    else if x.value < y.value then Some(I256(y.value - x.value, y.negative))
    else Some(I256(0, false))
  }

  function Sub(x: I256, y: I256): Option<I256> {
    Add(x, I256(y.value, if y.value == 0 then false else !y.negative))
  }

  /** The canonical representation of an integer. */
  function Canon(n: int): (x: I256)
    ensures x.Denotes() == n && x.Canonical()
  {
    I256(Magnitude(n), n < 0)
  }

  /** Addition is integer addition, defined exactly when the sum fits, and its result is never negative zero. */
  lemma AddIsExact(x: I256, y: I256)
    requires x.Fits() && y.Fits()
    ensures Add(x, y) == if Magnitude(x.Denotes() + y.Denotes()) < LIMIT then Some(Canon(x.Denotes() + y.Denotes())) else None
  {
  }

  lemma SubIsExact(x: I256, y: I256)
    requires x.Fits() && y.Fits()
    ensures Sub(x, y) == if Magnitude(x.Denotes() - y.Denotes()) < LIMIT then Some(Canon(x.Denotes() - y.Denotes())) else None
  {
    AddIsExact(x, I256(y.value, if y.value == 0 then false else !y.negative));
  }

  /** Adding and then subtracting the same number gives the canonical form of the start. */
  lemma SubUndoesAdd(x: I256, y: I256)
    requires x.Fits() && y.Fits() && Add(x, y).Some?
    ensures Sub(Add(x, y).value, y) == Some(Canon(x.Denotes()))
  {
    AddIsExact(x, y);
    SubIsExact(Add(x, y).value, y);
  }
}
