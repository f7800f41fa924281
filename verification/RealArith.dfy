/**
  Products and quotients of reals by name, so that proofs about rate limiters can hide them and
  stay linear; the lemmas are all that those proofs use.
*/
module RealArith {
  function Times(x: real, r: real): real {
    x * r
  }

  function Over(x: real, r: real): real
    requires r > 0.0
  {
    x / r
  }

  function Min(x: real, y: real): real {
    if x <= y then x else y
  }

  function Max(x: real, y: real): real {
    if x >= y then x else y
  }

  lemma TimesIs(x: real, r: real)
    ensures Times(x, r) == x * r == r * x
  {
  }

  lemma TimesAdds(x: real, y: real, r: real)
    ensures Times(x + y, r) == Times(x, r) + Times(y, r)
  {
  }

  lemma TimesOrder(x: real, y: real, r: real)
    requires r > 0.0
    ensures x <= y <==> Times(x, r) <= Times(y, r)
    ensures x < y <==> Times(x, r) < Times(y, r)
    ensures Times(0.0, r) == 0.0
  {
  }

  lemma OverTimes(x: real, r: real)
    requires r > 0.0
    ensures Times(Over(x, r), r) == x
    ensures x > 0.0 <==> Over(x, r) > 0.0
  {
  }
}
