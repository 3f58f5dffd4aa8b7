/**
 * Which product the seed makes of a running index: the index picks a catalogue
 * and a local index, and the local index is read as a number in mixed radix
 * whose digits choose one value from each non-empty attribute list.
 */
module ProductEnumeration {
  import opened Options

  /** Attribute values, only compared. */
  type Value = nat

  datatype Definition = Definition(
    category: Value, series: Value,
    models: seq<Value>, variants: seq<Value>, storage: seq<Value>, ram: seq<Value>, colors: seq<Value>,
    displaySizes: seq<Value>, cpu: seq<Value>, gpu: seq<Value>, refreshRates: seq<Value>, capacities: seq<Value>,
    energyRatings: seq<Value>, editions: seq<Value>, releaseYears: seq<Value>)

  datatype ProductInput = ProductInput(
    definition: Definition, model: Value,
    variant: Option<Value>, storage: Option<Value>, ram: Option<Value>, color: Option<Value>, displaySize: Option<Value>,
    cpu: Option<Value>, gpu: Option<Value>, refreshRate: Option<Value>, capacity: Option<Value>,
    energyRating: Option<Value>, edition: Option<Value>, releaseYear: Value, sequence: nat)

  /** The lists in the order in which digits are taken, least significant first. */
  function ListAt(d: Definition, k: nat): seq<Value>
    requires k < 13
  {
    if k == 0 then d.models
    else if k == 1 then d.variants
    else if k == 2 then d.storage
    else if k == 3 then d.ram
    else if k == 4 then d.colors
    else if k == 5 then d.displaySizes
    else if k == 6 then d.cpu
    else if k == 7 then d.gpu
    else if k == 8 then d.refreshRates
    else if k == 9 then d.capacities
    else if k == 10 then d.energyRatings
    else if k == 11 then d.editions
    else d.releaseYears
  }

  function Lists(d: Definition): (lists: seq<seq<Value>>)
    ensures |lists| == 13
  {
    seq(13, k requires 0 <= k < 13 => ListAt(d, k))
  }

  // ----- numbers in mixed radix

  /** An empty list takes no part: it is a digit that is always 0. */
  function Base(values: seq<Value>): (base: nat)
    ensures base > 0
  {
    if |values| == 0 then 1 else |values|
  }

  function Pick(values: seq<Value>, cursor: nat): (pick: Option<Value>)
    ensures pick.None? <==> values == []
  {
    if |values| == 0 then None else Some(values[cursor % |values|])
  }

  function Rest(values: seq<Value>, cursor: nat): nat {
    cursor / Base(values)
  }

  /** The cursor when the first `k` lists have taken their digits. */
  function CursorAt(lists: seq<seq<Value>>, n: nat, k: nat): nat
    requires k <= |lists|
  {
    if k == 0 then n else Rest(lists[k - 1], CursorAt(lists, n, k - 1))
  }

  function Digit(lists: seq<seq<Value>>, n: nat, k: nat): (digit: nat)
    requires k < |lists|
    ensures digit < Base(lists[k])
  {
    CursorAt(lists, n, k) % Base(lists[k])
  }

  function Digits(lists: seq<seq<Value>>, n: nat): (digits: seq<nat>)
    ensures IsDigits(lists, digits)
  {
    seq(|lists|, k requires 0 <= k < |lists| => Digit(lists, n, k))
  }

  predicate IsDigits(lists: seq<seq<Value>>, digits: seq<nat>) {
    |digits| == |lists| && forall k :: 0 <= k < |lists| ==> digits[k] < Base(lists[k])
  }

  function Times(a: nat, b: nat): nat {
    a * b
  }

  /** What a one in place `k` is worth. */
  function Weight(lists: seq<seq<Value>>, k: nat): (weight: nat)
    requires k <= |lists|
    ensures weight > 0
  {
    if k == 0 then 1 else
      PositiveTimes(Weight(lists, k - 1), Base(lists[k - 1]));
      Times(Weight(lists, k - 1), Base(lists[k - 1]))
  }

  /** How many different choices there are: the product of the non-empty lists' sizes. */
  function Capacity(lists: seq<seq<Value>>): (capacity: nat)
    ensures capacity > 0
  {
    Weight(lists, |lists|)
  }

  function Encode(lists: seq<seq<Value>>, digits: seq<nat>, k: nat): nat
    requires k <= |lists| && k <= |digits|
  {
    if k == 0 then 0 else Encode(lists, digits, k - 1) + Times(digits[k - 1], Weight(lists, k - 1))
  }

  lemma PositiveTimes(a: nat, b: nat)
    ensures a > 0 && b > 0 ==> Times(a, b) > 0
  {
  }

  lemma BelowModulus(n: nat, m: nat, modulus: nat)
    requires n <= m < modulus && n % modulus == m % modulus
    ensures n == m
  {
    QuotientUnique(n, modulus, 0, n);
    QuotientUnique(m, modulus, 0, m);
  }

  lemma TimesMonotone(a: nat, b: nat, c: nat)
    requires a <= b
    ensures Times(a, c) <= Times(b, c)
  {
    assert (b - a) * c >= 0;
  }

  lemma NoSmallMultiple(d: int, weight: int)
    requires weight > 0
    ensures d > 0 ==> d * weight >= weight
    ensures d < 0 ==> d * weight <= -weight
  {
    if d > 0 {
      assert (d - 1) * weight >= 0;
    } else if d < 0 {
      assert (-d - 1) * weight >= 0;
    }
  }

  lemma QuotientUnique(n: nat, weight: nat, quotient: nat, rest: nat)
    requires weight > 0 && rest < weight && n == rest + Times(quotient, weight)
    ensures quotient == n / weight && rest == n % weight
  {
    var q, r := n / weight, n % weight;
    assert n == r + q * weight;
    assert (quotient - q) * weight == quotient * weight - q * weight == r - rest;
    NoSmallMultiple(quotient - q, weight);
  }

  lemma {:induction false} EncodeBelowWeight(lists: seq<seq<Value>>, digits: seq<nat>, k: nat)
    requires IsDigits(lists, digits) && k <= |lists|
    ensures Encode(lists, digits, k) < Weight(lists, k)
  {
    if k > 0 {
      EncodeBelowWeight(lists, digits, k - 1);
      DigitFits(digits[k - 1], Base(lists[k - 1]), Weight(lists, k - 1));
    }
  }

  lemma DigitFits(digit: nat, base: nat, weight: nat)
    requires digit < base
    ensures Times(digit, weight) + weight <= Times(weight, base)
  {
    assert weight * base == weight * (base - 1 - digit) + digit * weight + weight;
  }

  /** The digits taken so far and the cursor together still make up the number. */
  lemma {:induction false} DigitsAndCursor(lists: seq<seq<Value>>, n: nat, k: nat)
    requires k <= |lists|
    ensures n == Encode(lists, Digits(lists, n), k) + Times(CursorAt(lists, n, k), Weight(lists, k))
  {
    hide Times;
    if k == 0 {
      TimesOne(n);
    } else {
      DigitsAndCursor(lists, n, k - 1);
      SplitCursor(CursorAt(lists, n, k - 1), Base(lists[k - 1]), Weight(lists, k - 1));
    }
  }

  lemma TimesOne(n: nat)
    ensures Times(n, 1) == n
  {
  }

  lemma SplitCursor(cursor: nat, base: nat, weight: nat)
    requires base > 0
    ensures Times(cursor, weight) == Times(cursor % base, weight) + Times(cursor / base, Times(weight, base))
  {
    var q, r := cursor / base, cursor % base;
    assert cursor == r + q * base;
    calc {
      Times(cursor, weight);
      (r + q * base) * weight;
      r * weight + (q * base) * weight;
      { assert (q * base) * weight == q * (base * weight); }
      Times(r, weight) + Times(q, Times(weight, base));
    }
  }

  /** Re-encoding the digits gives back the local index, up to whole turns of the counter. */
  lemma DigitsReencode(lists: seq<seq<Value>>, n: nat)
    ensures Encode(lists, Digits(lists, n), |lists|) == n % Capacity(lists)
    ensures n < Capacity(lists) ==> Encode(lists, Digits(lists, n), |lists|) == n
  {
    DigitsAndCursor(lists, n, |lists|);
    EncodeBelowWeight(lists, Digits(lists, n), |lists|);
    QuotientUnique(n, Capacity(lists), CursorAt(lists, n, |lists|), Encode(lists, Digits(lists, n), |lists|));
    if n < Capacity(lists) {
      QuotientUnique(n, Capacity(lists), 0, n);
    }
  }

  lemma {:induction false} EncodeInjective(lists: seq<seq<Value>>, a: seq<nat>, b: seq<nat>, k: nat)
    requires IsDigits(lists, a) && IsDigits(lists, b) && k <= |lists|
    requires Encode(lists, a, k) == Encode(lists, b, k)
    ensures a[..k] == b[..k]
  {
    if k > 0 {
      var weight := Weight(lists, k - 1);
      EncodeBelowWeight(lists, a, k - 1);
      EncodeBelowWeight(lists, b, k - 1);
      QuotientUnique(Encode(lists, a, k), weight, a[k - 1], Encode(lists, a, k - 1));
      QuotientUnique(Encode(lists, b, k), weight, b[k - 1], Encode(lists, b, k - 1));
      EncodeInjective(lists, a, b, k - 1);
      assert a[..k] == a[..k - 1] + [a[k - 1]] && b[..k] == b[..k - 1] + [b[k - 1]];
    }
  }

  /** Two local indices take the same digits exactly when they differ by whole turns. */
  lemma SameDigitsExactly(lists: seq<seq<Value>>, n: nat, m: nat)
    ensures Digits(lists, n) == Digits(lists, m) <==> n % Capacity(lists) == m % Capacity(lists)
  {
    DigitsReencode(lists, n);
    DigitsReencode(lists, m);
    if n % Capacity(lists) == m % Capacity(lists) {
      EncodeInjective(lists, Digits(lists, n), Digits(lists, m), |lists|);
      assert Digits(lists, n)[..|lists|] == Digits(lists, n) && Digits(lists, m)[..|lists|] == Digits(lists, m);
    }
  }

  /** And every choice of digits is taken by the local index that encodes it: nothing is skipped. */
  lemma EveryChoiceIsTaken(lists: seq<seq<Value>>, digits: seq<nat>)
    requires IsDigits(lists, digits)
    ensures Encode(lists, digits, |lists|) < Capacity(lists)
    ensures Digits(lists, Encode(lists, digits, |lists|)) == digits
  {
    var n := Encode(lists, digits, |lists|);
    EncodeBelowWeight(lists, digits, |lists|);
    DigitsReencode(lists, n);
    EncodeInjective(lists, Digits(lists, n), digits, |lists|);
    assert Digits(lists, n)[..|lists|] == Digits(lists, n) && digits[..|lists|] == digits;
  }

  // ----- attributes

  function Choices(lists: seq<seq<Value>>, n: nat): (choices: seq<Option<Value>>)
    ensures |choices| == |lists|
  {
    seq(|lists|, k requires 0 <= k < |lists| => Pick(lists[k], CursorAt(lists, n, k)))
  }

  predicate DistinctValues(lists: seq<seq<Value>>) {
    forall k, i, j :: 0 <= k < |lists| && 0 <= i < j < |lists[k]| ==> lists[k][i] != lists[k][j]
  }

  /** As long as no list repeats a value, two local indices mean the same attributes exactly when they differ by whole turns. */
  lemma SameChoicesExactly(lists: seq<seq<Value>>, n: nat, m: nat)
    requires DistinctValues(lists)
    ensures Choices(lists, n) == Choices(lists, m) <==> n % Capacity(lists) == m % Capacity(lists)
  {
    SameDigitsExactly(lists, n, m);
    forall k | 0 <= k < |lists|
      ensures Choices(lists, n)[k] == Choices(lists, m)[k] <==> Digits(lists, n)[k] == Digits(lists, m)[k]
    {
      SameDigitExactly(lists, n, m, k);
    }
    if Digits(lists, n) == Digits(lists, m) {
      assert Choices(lists, n) == Choices(lists, m);
    } else {
      var k :| 0 <= k < |lists| && Digits(lists, n)[k] != Digits(lists, m)[k];
      assert Choices(lists, n)[k] != Choices(lists, m)[k];
    }
  }

  lemma SameDigitExactly(lists: seq<seq<Value>>, n: nat, m: nat, k: nat)
    requires DistinctValues(lists) && k < |lists|
    ensures Choices(lists, n)[k] == Choices(lists, m)[k] <==> Digits(lists, n)[k] == Digits(lists, m)[k]
  {
    var i, j := Digit(lists, n, k), Digit(lists, m, k);
    if |lists[k]| > 0 {
      assert Choices(lists, n)[k] == Some(lists[k][i]) && Choices(lists, m)[k] == Some(lists[k][j]);
    }
  }

  /** The closure's variable: each list takes its digit and leaves the rest. */
  class Cursor {
    var at: nat

    constructor (localIndex: nat)
      ensures at == localIndex
    {
      at := localIndex;
    }

    method Next(values: seq<Value>) returns (value: Option<Value>)
      modifies this
      ensures value == Pick(values, old(at)) && at == Rest(values, old(at))
    {
      if |values| == 0 { return None; }
      value := Some(values[at % |values|]);
      at := at / |values|;
    }
  }

  function OrElse(value: Option<Value>, fallback: Value): Value {
    if value.Some? then value.value else fallback
  }

  /** The attributes of an input, in the order of the lists; a model or year that stands in for an empty list is none. */
  function AttributeAt(input: ProductInput, k: nat): Option<Value>
    requires k < 13
  {
    if k == 0 then (if input.definition.models == [] then None else Some(input.model))
    else if k == 1 then input.variant
    else if k == 2 then input.storage
    else if k == 3 then input.ram
    else if k == 4 then input.color
    else if k == 5 then input.displaySize
    else if k == 6 then input.cpu
    else if k == 7 then input.gpu
    else if k == 8 then input.refreshRate
    else if k == 9 then input.capacity
    else if k == 10 then input.energyRating
    else if k == 11 then input.edition
    else if input.definition.releaseYears == [] then None else Some(input.releaseYear)
  }

  function Attributes(input: ProductInput): seq<Option<Value>> {
    seq(13, k requires 0 <= k < 13 => AttributeAt(input, k))
  }

  lemma CursorStarts(d: Definition, n: nat)
    ensures CursorAt(Lists(d), n, 0) == n
  {
  }

  lemma CursorMoves(d: Definition, n: nat, k: nat)
    requires k < 13
    ensures CursorAt(Lists(d), n, k + 1) == Rest(ListAt(d, k), CursorAt(Lists(d), n, k))
  {
  }

  lemma ChoiceAt(d: Definition, n: nat, k: nat)
    requires k < 13
    ensures Choices(Lists(d), n)[k] == Pick(ListAt(d, k), CursorAt(Lists(d), n, k))
  {
  }

  lemma SameAttributes(input: ProductInput, choices: seq<Option<Value>>)
    requires |choices| == 13 && forall k | 0 <= k < 13 :: AttributeAt(input, k) == choices[k]
    ensures Attributes(input) == choices
  {
  }

  /** One product: every attribute is the choice its own digit of the local index makes. */
  method DecodeProduct(definition: Definition, localIndex: nat, sequence: nat, thisYear: Value) returns (input: ProductInput)
    ensures Attributes(input) == Choices(Lists(definition), localIndex)
    ensures input.definition == definition && input.sequence == sequence
    ensures definition.models == [] ==> input.model == definition.series
    ensures definition.releaseYears == [] ==> input.releaseYear == thisYear
  {
    hide Pick;
    hide Rest;
    hide Lists;
    hide CursorAt;
    hide Choices;
    hide Attributes;
    CursorStarts(definition, localIndex);
    var cursor := new Cursor(localIndex);
    var model := cursor.Next(definition.models);
    CursorMoves(definition, localIndex, 0);
    var variant := cursor.Next(definition.variants);
    CursorMoves(definition, localIndex, 1);
    var storage := cursor.Next(definition.storage);
    CursorMoves(definition, localIndex, 2);
    var ram := cursor.Next(definition.ram);
    CursorMoves(definition, localIndex, 3);
    var color := cursor.Next(definition.colors);
    CursorMoves(definition, localIndex, 4);
    var displaySize := cursor.Next(definition.displaySizes);
    CursorMoves(definition, localIndex, 5);
    var cpu := cursor.Next(definition.cpu);
    CursorMoves(definition, localIndex, 6);
    var gpu := cursor.Next(definition.gpu);
    CursorMoves(definition, localIndex, 7);
    var refreshRate := cursor.Next(definition.refreshRates);
    CursorMoves(definition, localIndex, 8);
    var capacity := cursor.Next(definition.capacities);
    CursorMoves(definition, localIndex, 9);
    var energyRating := cursor.Next(definition.energyRatings);
    CursorMoves(definition, localIndex, 10);
    var edition := cursor.Next(definition.editions);
    CursorMoves(definition, localIndex, 11);
    var releaseYear := cursor.Next(definition.releaseYears);
    input := ProductInput(definition, OrElse(model, definition.series), variant, storage, ram, color, displaySize, cpu, gpu,
                          refreshRate, capacity, energyRating, edition, OrElse(releaseYear, thisYear), sequence);
    forall k | 0 <= k < 13 ensures AttributeAt(input, k) == Choices(Lists(definition), localIndex)[k] {
      ChoiceAt(definition, localIndex, k);
    }
    SameAttributes(input, Choices(Lists(definition), localIndex));
  }

  // ----- in closed form

  /** How many combinations some lists have between them, empty ones taking no part. */
  ghost function Combinations(lists: seq<seq<Value>>): (count: nat)
    ensures count > 0
  {
    if lists == [] then 1
    else
      var last := lists[|lists| - 1];
      PositiveTimes(Combinations(lists[..|lists| - 1]), if last == [] then 1 else |last|);
      Times(Combinations(lists[..|lists| - 1]), if last == [] then 1 else |last|)
  }

  /** The value of a list that changes with every `step` indices. */
  ghost function Every(values: seq<Value>, step: nat, n: nat): Option<Value>
    requires step > 0
  {
    if values == [] then None else Some(values[n / step % |values|])
  }

  lemma {:induction false} WeightIsCombinations(lists: seq<seq<Value>>, k: nat)
    requires k <= |lists|
    ensures Weight(lists, k) == Combinations(lists[..k])
  {
    if k > 0 {
      WeightIsCombinations(lists, k - 1);
      assert lists[..k][..k - 1] == lists[..k - 1];
    }
  }

  /** The k-th choice changes whenever the lists before it have gone through all their combinations. */
  lemma ChoiceInFull(lists: seq<seq<Value>>, n: nat, k: nat)
    requires k < |lists|
    ensures Choices(lists, n)[k] == Every(lists[k], Combinations(lists[..k]), n)
  {
    DigitsAndCursor(lists, n, k);
    EncodeBelowWeight(lists, Digits(lists, n), k);
    QuotientUnique(n, Weight(lists, k), CursorAt(lists, n, k), Encode(lists, Digits(lists, n), k));
    WeightIsCombinations(lists, k);
  }

  lemma ListsBefore(d: Definition)
    ensures var lists := Lists(d);
            && lists == [d.models, d.variants, d.storage, d.ram, d.colors, d.displaySizes, d.cpu, d.gpu, d.refreshRates,
                         d.capacities, d.energyRatings, d.editions, d.releaseYears]
  {
  }

  lemma NoListsBefore()
    ensures Combinations([]) == 1
  {
  }

  /** Every field of a decoded product, by itself: models change fastest, release years slowest. */
  lemma DecodedInFull(input: ProductInput, d: Definition, n: nat)
    requires input.definition == d && Attributes(input) == Choices(Lists(d), n)
    ensures d.models != [] ==> Some(input.model) == Every(d.models, 1, n)
    ensures input.variant == Every(d.variants, Combinations([d.models]), n)
    ensures input.storage == Every(d.storage, Combinations([d.models, d.variants]), n)
    ensures input.ram == Every(d.ram, Combinations([d.models, d.variants, d.storage]), n)
    ensures input.color == Every(d.colors, Combinations([d.models, d.variants, d.storage, d.ram]), n)
    ensures input.displaySize == Every(d.displaySizes, Combinations([d.models, d.variants, d.storage, d.ram, d.colors]), n)
    ensures input.cpu == Every(d.cpu, Combinations([d.models, d.variants, d.storage, d.ram, d.colors, d.displaySizes]), n)
    ensures input.gpu == Every(d.gpu, Combinations([d.models, d.variants, d.storage, d.ram, d.colors, d.displaySizes, d.cpu]), n)
    ensures input.refreshRate
            == Every(d.refreshRates, Combinations([d.models, d.variants, d.storage, d.ram, d.colors, d.displaySizes, d.cpu, d.gpu]), n)
    ensures input.capacity
            == Every(d.capacities,
                     Combinations([d.models, d.variants, d.storage, d.ram, d.colors, d.displaySizes, d.cpu, d.gpu, d.refreshRates]), n)
    ensures input.energyRating
            == Every(d.energyRatings,
                     Combinations([d.models, d.variants, d.storage, d.ram, d.colors, d.displaySizes, d.cpu, d.gpu, d.refreshRates,
                                   d.capacities]), n)
    ensures input.edition
            == Every(d.editions,
                     Combinations([d.models, d.variants, d.storage, d.ram, d.colors, d.displaySizes, d.cpu, d.gpu, d.refreshRates,
                                   d.capacities, d.energyRatings]), n)
    ensures d.releaseYears != [] ==>
              Some(input.releaseYear)
              == Every(d.releaseYears,
                       Combinations([d.models, d.variants, d.storage, d.ram, d.colors, d.displaySizes, d.cpu, d.gpu, d.refreshRates,
                                     d.capacities, d.energyRatings, d.editions]), n)
  {
    ListsBefore(d);
    var lists := Lists(d);
    forall k: nat | k < 13 ensures AttributeAt(input, k) == Every(lists[k], Combinations(lists[..k]), n) {
      ChoiceInFull(lists, n, k);
      assert Attributes(input)[k] == AttributeAt(input, k);
    }
    hide Lists;
    hide Choices;
    hide Every;
    hide Attributes;
    hide Combinations;
    assert lists[..1] == [d.models];
    assert lists[..2] == [d.models, d.variants];
    assert lists[..3] == [d.models, d.variants, d.storage];
    assert lists[..4] == [d.models, d.variants, d.storage, d.ram];
    assert lists[..5] == [d.models, d.variants, d.storage, d.ram, d.colors];
    assert lists[..6] == [d.models, d.variants, d.storage, d.ram, d.colors, d.displaySizes];
    assert lists[..7] == [d.models, d.variants, d.storage, d.ram, d.colors, d.displaySizes, d.cpu];
    assert lists[..8] == [d.models, d.variants, d.storage, d.ram, d.colors, d.displaySizes, d.cpu, d.gpu];
    assert lists[..9] == [d.models, d.variants, d.storage, d.ram, d.colors, d.displaySizes, d.cpu, d.gpu, d.refreshRates];
    assert lists[..10] == [d.models, d.variants, d.storage, d.ram, d.colors, d.displaySizes, d.cpu, d.gpu, d.refreshRates, d.capacities];
    assert lists[..11]
           == [d.models, d.variants, d.storage, d.ram, d.colors, d.displaySizes, d.cpu,
               d.gpu, d.refreshRates, d.capacities, d.energyRatings];
    assert lists[..12]
           == [d.models, d.variants, d.storage, d.ram, d.colors, d.displaySizes, d.cpu,
               d.gpu, d.refreshRates, d.capacities, d.energyRatings, d.editions];
    NoListsBefore();
    assert lists[..0] == [];
  }

  // ----- the whole enumeration

  /** The place in the enumeration of a catalogue's local index. */
  function IndexOf(catalogues: nat, catalogue: nat, localIndex: nat): nat {
    catalogue + Times(localIndex, catalogues)
  }

  /** Index and (catalogue, local index) determine each other. */
  lemma IndexRoundTrip(catalogues: nat, index: nat, catalogue: nat, localIndex: nat)
    requires catalogue < catalogues
    ensures index == IndexOf(catalogues, catalogue, localIndex) <==> catalogue == index % catalogues && localIndex == index / catalogues
  {
    if index == IndexOf(catalogues, catalogue, localIndex) {
      QuotientUnique(index, catalogues, localIndex, catalogue);
    }
  }

  ghost predicate IsSeed(definitions: seq<Definition>, index: nat, thisYear: Value, input: ProductInput)
    requires |definitions| > 0
  {
    var definition := definitions[index % |definitions|];
    && input.definition == definition && input.sequence == index + 1
    && Attributes(input) == Choices(Lists(definition), index / |definitions|)
    && (definition.models == [] ==> input.model == definition.series)
    && (definition.releaseYears == [] ==> input.releaseYear == thisYear)
  }

  /** The products in order, the catalogues taking turns; a missing category stops the seed. */
  method BuildProductSeeds(definitions: seq<Definition>, target: nat, categories: set<Value>, thisYear: Value)
    returns (seeds: Option<seq<ProductInput>>)
    requires |definitions| > 0
    ensures seeds.Some? <==> forall index: nat :: index < target ==> definitions[index % |definitions|].category in categories
    ensures seeds.Some? ==> |seeds.value| == target
                            && forall index: nat :: index < target ==> IsSeed(definitions, index, thisYear, seeds.value[index])
  {
    var products: seq<ProductInput> := [];
    for index := 0 to target
      invariant |products| == index
      invariant forall i: nat :: i < index ==> definitions[i % |definitions|].category in categories
      invariant forall i: nat :: i < index ==> IsSeed(definitions, i, thisYear, products[i])
    {
      var definition := definitions[index % |definitions|];
      if definition.category !in categories { return None; }
      var input := DecodeProduct(definition, index / |definitions|, index + 1, thisYear);
      products := products + [input];
    }
    seeds := Some(products);
  }

  /** Two places of the enumeration that stand for the same catalogue and the same attributes. */
  predicate SameProduct(definitions: seq<Definition>, i: nat, j: nat)
    requires |definitions| > 0
  {
    && i % |definitions| == j % |definitions|
    && Choices(Lists(definitions[i % |definitions|]), i / |definitions|) == Choices(Lists(definitions[i % |definitions|]), j / |definitions|)
  }

  ghost predicate AllDistinct(definitions: seq<Definition>, target: nat)
    requires |definitions| > 0
  {
    forall i: nat, j: nat :: i < j < target ==> !SameProduct(definitions, i, j)
  }

  /** A catalogue is exhausted when its first repeated combination still has an index below the target. */
  predicate Repeats(definitions: seq<Definition>, target: nat, c: nat)
    requires c < |definitions|
  {
    IndexOf(|definitions|, c, Capacity(Lists(definitions[c]))) < target
  }

  /** The seed makes no product twice exactly when it stops before any catalogue has gone through its combinations. */
  lemma DistinctExactly(definitions: seq<Definition>, target: nat)
    requires |definitions| > 0
    requires forall c :: 0 <= c < |definitions| ==> DistinctValues(Lists(definitions[c]))
    ensures AllDistinct(definitions, target) <==> forall c: nat :: c < |definitions| ==> !Repeats(definitions, target, c)
  {
    forall c: nat | c < |definitions| && Repeats(definitions, target, c) ensures !AllDistinct(definitions, target) {
      FirstRepeat(definitions, target, c);
    }
    forall i: nat, j: nat | i < j < target && SameProduct(definitions, i, j)
      ensures Repeats(definitions, target, i % |definitions|)
    {
      RepeatIsFar(definitions, target, i, j);
    }
  }

  lemma FirstRepeat(definitions: seq<Definition>, target: nat, c: nat)
    requires c < |definitions| && Repeats(definitions, target, c) && DistinctValues(Lists(definitions[c]))
    ensures !AllDistinct(definitions, target)
  {
    var lists := Lists(definitions[c]);
    var j := IndexOf(|definitions|, c, Capacity(lists));
    IndexRoundTrip(|definitions|, c, c, 0);
    IndexRoundTrip(|definitions|, j, c, Capacity(lists));
    SameChoicesExactly(lists, 0, Capacity(lists));
    QuotientUnique(Capacity(lists), Capacity(lists), 1, 0);
    PositiveTimes(Capacity(lists), |definitions|);
    assert SameProduct(definitions, c, j);
  }

  lemma RepeatIsFar(definitions: seq<Definition>, target: nat, i: nat, j: nat)
    requires |definitions| > 0 && i < j < target && SameProduct(definitions, i, j)
    requires DistinctValues(Lists(definitions[i % |definitions|]))
    ensures Repeats(definitions, target, i % |definitions|)
  {
    var c := i % |definitions|;
    var lists := Lists(definitions[c]);
    var n, m := i / |definitions|, j / |definitions|;
    IndexRoundTrip(|definitions|, i, c, n);
    IndexRoundTrip(|definitions|, j, c, m);
    SameChoicesExactly(lists, n, m);
    hide Times;
    hide Capacity;
    if m < n { TimesMonotone(m, n, |definitions|); }
    if Capacity(lists) <= m {
      TimesMonotone(Capacity(lists), m, |definitions|);
    } else {
      BelowModulus(n, m, Capacity(lists));
    }
  }
}
