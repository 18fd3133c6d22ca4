/** The price of a run: tokens times a price per million, rounded half up to a millionth. */
module RunCost {

  // Decimal's ROUND_HALF_UP: to the nearest integer, ties away from zero.
  function HalfUp(x: real): int {
    if x >= 0.0 then (x + 0.5).Floor else -((-x + 0.5).Floor)
  }

  // Millionths of the unit, before and after rounding. Prices are per million tokens, so the division
  // by a million and the six decimal places cancel.
  function Exact(input: int, output: int, inputPrice: real, outputPrice: real): real {
    input as real * inputPrice + output as real * outputPrice
  }

  function Cost(input: int, output: int, inputPrice: real, outputPrice: real): int {
    HalfUp(Exact(input, output, inputPrice, outputPrice))
  }

  datatype Usage = Usage(input: int, output: int)

  function Total(rounds: seq<Usage>): Usage {
    if rounds == [] then Usage(0, 0)
    else
      var before, last := Total(rounds[..|rounds| - 1]), rounds[|rounds| - 1];
      Usage(before.input + last.input, before.output + last.output)
  }

  function SumOfCosts(rounds: seq<Usage>, inputPrice: real, outputPrice: real): int {
    if rounds == [] then 0
    else
      var last := rounds[|rounds| - 1];
      SumOfCosts(rounds[..|rounds| - 1], inputPrice, outputPrice)
      + Cost(last.input, last.output, inputPrice, outputPrice)
  }

  // The tool loop adds up the tokens of its rounds and is charged once.
  method ChargeRounds(rounds: seq<Usage>, inputPrice: real, outputPrice: real) returns (amount: int)
    ensures amount == Cost(Total(rounds).input, Total(rounds).output, inputPrice, outputPrice)
  {
    var totalInput, totalOutput := 0, 0;
    for k := 0 to |rounds|
      invariant Usage(totalInput, totalOutput) == Total(rounds[..k])
    {
      assert rounds[..k + 1][..k] == rounds[..k];
      totalInput := totalInput + rounds[k].input;
      totalOutput := totalOutput + rounds[k].output;
    }
    assert rounds[..|rounds|] == rounds;
    amount := Cost(totalInput, totalOutput, inputPrice, outputPrice);
  }

  // The nearest integer, and the only one that is: ties go away from zero.
  lemma HalfUpIsNearest(x: real, k: int)
    ensures HalfUp(x) == k <==>
            if x >= 0.0 then k as real - 0.5 <= x < k as real + 0.5 else k as real - 0.5 < x <= k as real + 0.5
  {
  }

  lemma CostIsNearest(input: int, output: int, inputPrice: real, outputPrice: real)
    ensures var exact := Exact(input, output, inputPrice, outputPrice);
            exact - 0.5 <= Cost(input, output, inputPrice, outputPrice) as real <= exact + 0.5
  {
    var exact := Exact(input, output, inputPrice, outputPrice);
    HalfUpIsNearest(exact, HalfUp(exact));
  }

  lemma TimesGrows(a: int, b: int, price: real)
    requires a <= b && price >= 0.0
    ensures a as real * price <= b as real * price
  {
    assert (b - a) as real * price >= 0.0;
    assert (b - a) as real == b as real - a as real;
  }

  lemma HalfUpGrows(x: real, y: real)
    requires x <= y
    ensures HalfUp(x) <= HalfUp(y)
  {
    HalfUpIsNearest(x, HalfUp(x));
    HalfUpIsNearest(y, HalfUp(y));
  }

  lemma CostGrows(input: int, output: int, moreInput: int, moreOutput: int, inputPrice: real, outputPrice: real)
    requires inputPrice >= 0.0 && outputPrice >= 0.0 && input <= moreInput && output <= moreOutput
    ensures Cost(input, output, inputPrice, outputPrice) <= Cost(moreInput, moreOutput, inputPrice, outputPrice)
  {
    TimesGrows(input, moreInput, inputPrice);
    TimesGrows(output, moreOutput, outputPrice);
    HalfUpGrows(Exact(input, output, inputPrice, outputPrice), Exact(moreInput, moreOutput, inputPrice, outputPrice));
  }

  lemma ExactAdds(a: Usage, b: Usage, inputPrice: real, outputPrice: real)
    ensures Exact(a.input + b.input, a.output + b.output, inputPrice, outputPrice)
            == Exact(a.input, a.output, inputPrice, outputPrice) + Exact(b.input, b.output, inputPrice, outputPrice)
  {
    assert (a.input + b.input) as real * inputPrice == a.input as real * inputPrice + b.input as real * inputPrice;
    assert (a.output + b.output) as real * outputPrice
           == a.output as real * outputPrice + b.output as real * outputPrice;
  }

  lemma {:induction false} SumStaysNear(rounds: seq<Usage>, inputPrice: real, outputPrice: real)
    ensures var exact := Exact(Total(rounds).input, Total(rounds).output, inputPrice, outputPrice);
            exact - |rounds| as real * 0.5 <= SumOfCosts(rounds, inputPrice, outputPrice) as real
            <= exact + |rounds| as real * 0.5
  {
    if rounds != [] {
      var init, last := rounds[..|rounds| - 1], rounds[|rounds| - 1];
      SumStaysNear(init, inputPrice, outputPrice);
      CostIsNearest(last.input, last.output, inputPrice, outputPrice);
      ExactAdds(Total(init), last, inputPrice, outputPrice);
    }
  }

  // Charging n rounds once instead of one by one moves the amount by at most (n + 1) / 2 millionths.
  lemma ChargedOnceOrPerRound(rounds: seq<Usage>, inputPrice: real, outputPrice: real)
    ensures var once, perRound := Cost(Total(rounds).input, Total(rounds).output, inputPrice, outputPrice),
                                    SumOfCosts(rounds, inputPrice, outputPrice);
            -(|rounds| + 1) <= 2 * (once - perRound) <= |rounds| + 1
  {
    SumStaysNear(rounds, inputPrice, outputPrice);
    CostIsNearest(Total(rounds).input, Total(rounds).output, inputPrice, outputPrice);
  }
}
