/** Splitting an amount by percentages, in exact integers. */
module Splits {
  /** Integer division as the source has it: toward zero. */
  function Quotient(a: int, b: nat): int
    requires b > 0
  {
    if a >= 0 then a / b else -((-a) / b)
  }

  lemma DivisionBounds(c: nat, b: nat)
    requires b > 0
    ensures c / b >= 0 && b * (c / b) <= c < b * (c / b) + b
  {
    assert c == b * (c / b) + c % b;
  }

  lemma TimesNegative(b: int, q: int)
    ensures b * -q == -(b * q)
  {
  }

  /** The quotient times the divisor falls short of the number, toward zero, by less than the divisor. */
  lemma QuotientTruncates(a: int, b: nat)
    requires b > 0
    ensures var q := Quotient(a, b);
      if a >= 0 then q >= 0 && b * q <= a < b * q + b else q <= 0 && b * q - b < a <= b * q
  {
    if a >= 0 {
      DivisionBounds(a, b);
    } else {
      DivisionBounds(-a, b);
      TimesNegative(b, (-a) / b);
    }
  }

  function Share(total: int, percent: int): int { Quotient(total * percent, 100) }

  function Sum(xs: seq<int>): int
    decreases |xs|
  {
    if xs == [] then 0 else Sum(xs[..|xs| - 1]) + xs[|xs| - 1]
  }

  function Shares(total: int, percents: seq<int>): (r: seq<int>)
    ensures |r| == |percents|
  {
    seq(|percents|, i requires 0 <= i < |percents| => Share(total, percents[i]))
  }

  /** Every part is its share, save the last, which takes what the others leave. */
  function Split(total: int, percents: seq<int>): (r: seq<int>)
    ensures |r| == |percents|
  {
    if percents == [] then []
    else
      var others := Shares(total, percents[..|percents| - 1]);
      others + [total - Sum(others)]
  }

  method SplitByPercent(total: int, percents: seq<int>) returns (parts: seq<int>)
    ensures parts == Split(total, percents)
  {
    var given := 0;
    parts := [];
    var i := 0;
    while i < |percents|
      invariant 0 <= i <= |percents|
      invariant i < |percents| ==> parts == Shares(total, percents[..i]) && given == Sum(parts)
      invariant i == |percents| ==> parts == Split(total, percents)
    {
      if i == |percents| - 1 {
        parts := parts + [total - given];
      } else {
        var share := Quotient(total * percents[i], 100);
        given := given + share;
        SumAppend(parts, share);
        parts := parts + [share];
        assert parts == Shares(total, percents[..i + 1]);
      }
      i := i + 1;
    }
  }

  lemma SumAppend(xs: seq<int>, x: int)
    ensures Sum(xs + [x]) == Sum(xs) + x
  {
    assert (xs + [x])[..|xs|] == xs;
  }

  /** Nothing is lost to rounding, whatever the total and the percentages, unless there is no part to hold it. */
  lemma PartsSumIff(total: int, percents: seq<int>)
    ensures Sum(Split(total, percents)) == total <==> percents != [] || total == 0
  {
    if percents != [] {
      var others := Shares(total, percents[..|percents| - 1]);
      SumAppend(others, total - Sum(others));
    }
  }

  predicate NonNegative(xs: seq<int>) { forall i | 0 <= i < |xs| :: xs[i] >= 0 }

  /** The floored shares of some percentages fall short of their exact sum by less than one each. */
  lemma {:induction false} SharesShortfall(total: nat, percents: seq<int>)
    requires NonNegative(percents)
    ensures NonNegative(Shares(total, percents))
    ensures 100 * Sum(Shares(total, percents)) <= total * Sum(percents)
    ensures total * Sum(percents) <= 100 * Sum(Shares(total, percents)) + 99 * |percents|
    decreases |percents|
  {
    if percents != [] {
      var n := |percents| - 1;
      var front, p := percents[..n], percents[n];
      SharesShortfall(total, front);
      var share := Share(total, p);
      FloorShare(total, p);
      assert Shares(total, percents) == Shares(total, front) + [share];
      SumAppend(Shares(total, front), share);
      Distribute(total, Sum(front), p);
    }
  }

  lemma Distribute(a: int, b: int, c: int)
    ensures a * (b + c) == a * b + a * c
  {
  }

  /** A share is the exact floor of its part. */
  lemma FloorShare(total: nat, percent: nat)
    ensures var share := Share(total, percent); share >= 0 && 100 * share <= total * percent <= 100 * share + 99
  {
    var product := total * percent;
    assert product >= 0;
    assert product == 100 * (product / 100) + product % 100;
  }

  /** `part` is the floor of its exact share. */
  predicate IsFloor(part: int, total: nat, percent: int) {
    part >= 0 && 100 * part <= total * percent <= 100 * part + 99
  }

  lemma Remainder(total: nat, sum: int, percent: nat, others: int, n: nat)
    requires sum + percent == 100 && 100 * others <= total * sum <= 100 * others + 99 * n
    ensures total - others >= 0
    ensures total * percent <= 100 * (total - others) <= total * percent + 99 * n
  {
    Distribute(total, sum, percent);
    assert total * (sum + percent) == 100 * total;
    assert total * percent >= 0;
  }

  /** Every part but the last is the floor of its exact share. */
  lemma OthersAreFloors(total: nat, percents: seq<int>, i: nat)
    requires NonNegative(percents) && i < |percents| - 1
    ensures IsFloor(Split(total, percents)[i], total, percents[i])
  {
    FloorShare(total, percents[i]);
    assert Split(total, percents)[i] == Share(total, percents[i]);
  }

  /** Whatever the signs, every part but the last is its exact share cut toward zero. */
  lemma OthersAreTruncated(total: int, percents: seq<int>, i: nat)
    requires i < |percents| - 1
    ensures var part, exact := Split(total, percents)[i], total * percents[i];
      if exact >= 0 then 0 <= 100 * part <= exact < 100 * part + 100 else 100 * part - 100 < exact <= 100 * part <= 0
  {
    QuotientTruncates(total * percents[i], 100);
    assert Split(total, percents)[i] == Share(total, percents[i]);
  }

  /** With percentages that sum to 100, the last is at least its exact share, by less than one per other part. */
  lemma LastTakesTheRest(total: nat, percents: seq<int>)
    requires percents != [] && NonNegative(percents) && Sum(percents) == 100
    ensures var n := |percents| - 1; var last := Split(total, percents)[n];
      last >= 0 && total * percents[n] <= 100 * last <= total * percents[n] + 99 * n
  {
    var n := |percents| - 1;
    SharesShortfall(total, percents[..n]);
    Remainder(total, Sum(percents[..n]), percents[n], Sum(Shares(total, percents[..n])), n);
  }

  // ------------------------------------------------------------- the preview

  function Pointwise(a: seq<int>, b: seq<int>): (r: seq<int>)
    requires |a| == |b|
    ensures |r| == |a| && forall i | 0 <= i < |a| :: r[i] == a[i] + b[i]
  {
    seq(|a|, i requires 0 <= i < |a| => a[i] + b[i])
  }

  lemma {:induction false} SumPointwise(a: seq<int>, b: seq<int>)
    requires |a| == |b|
    ensures Sum(Pointwise(a, b)) == Sum(a) + Sum(b)
    decreases |a|
  {
    if a != [] {
      var n := |a| - 1;
      SumPointwise(a[..n], b[..n]);
      assert Pointwise(a, b)[..n] == Pointwise(a[..n], b[..n]);
    }
  }

  datatype Preview = Preview(amounts: seq<int>, platformFees: seq<int>, totals: seq<int>, platformFee: int,
                             totalCost: int)

  /** The figures of a preview. The platform fee shown is the sum of the parts of the fee. */
  method PreviewFigures(totalAmount: int, platformFeeBps: int, percents: seq<int>) returns (r: Preview)
    ensures r.amounts == Split(totalAmount, percents)
    ensures r.platformFees == Split(Quotient(totalAmount * platformFeeBps, 10000), percents)
    ensures r.platformFee == Sum(r.platformFees) && r.totalCost == totalAmount + r.platformFee
    ensures r.platformFee == if percents == [] then 0 else Quotient(totalAmount * platformFeeBps, 10000)
    ensures r.totals == Pointwise(r.amounts, r.platformFees)
    ensures Sum(r.totals) == r.totalCost <==> percents != [] || totalAmount == 0
  {
    var amounts := SplitByPercent(totalAmount, percents);
    var fee := Quotient(totalAmount * platformFeeBps, 10000);
    var platformFees := SplitByPercent(fee, percents);
    var platformFee, i := 0, 0;
    while i < |platformFees|
      invariant 0 <= i <= |platformFees| && platformFee == Sum(platformFees[..i])
    {
      platformFee := platformFee + platformFees[i];
      assert platformFees[..i + 1][..i] == platformFees[..i];
      i := i + 1;
    }
    assert platformFees[..i] == platformFees;
    PartsSumIff(totalAmount, percents);
    PartsSumIff(fee, percents);
    SumPointwise(amounts, platformFees);
    r := Preview(amounts, platformFees, Pointwise(amounts, platformFees), platformFee, totalAmount + platformFee);
  }
}
