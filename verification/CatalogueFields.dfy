/**
 * What a run of merges does to the fields and attributes of the products that
 * survive it, when all rows were read before the run.
 */
module CatalogueFields {
  import opened CatalogueTables
  import opened CatalogueRuns

  /** The step's two rows are those of the tables before the run. */
  ghost predicate ReadFrom(t: Tables, step: Step) {
    && step.kept in t.products && step.keepLoaded == t.products[step.kept]
    && step.merged in t.products && step.mergeLoaded == t.products[step.merged]
  }

  ghost predicate ReadBefore(t: Tables, steps: seq<Step>) {
    forall i | 0 <= i < |steps| :: ReadFrom(t, steps[i])
  }

  /** The step merges a product with this kind of field into `product`. */
  ghost predicate Gives(step: Step, product: Id, field: Field) {
    step.kept == product && field in step.mergeLoaded.fields
  }

  /** Step `i` is the last to give `product` this kind of field. */
  ghost predicate GivesLast(steps: seq<Step>, product: Id, field: Field, i: int) {
    && 0 <= i < |steps| && Gives(steps[i], product, field)
    && forall j | i < j < |steps| :: !Gives(steps[j], product, field)
  }

  ghost predicate HasValue(products: map<Id, Product>, product: Id, field: Field, value: Id) {
    product in products && field in products[product].fields && products[product].fields[field] == value
  }

  /** The last direct merge that gives the field gives this value. */
  ghost predicate Given(steps: seq<Step>, product: Id, field: Field, value: Id) {
    exists i :: GivesLast(steps, product, field, i) && steps[i].mergeLoaded.fields[field] == value
  }

  lemma GivenByLast(steps: seq<Step>, product: Id, field: Field, value: Id)
    requires steps != []
    ensures var last := steps[|steps| - 1];
            Given(steps, product, field, value)
            <==> if Gives(last, product, field) then last.mergeLoaded.fields[field] == value
                 else Given(Init(steps), product, field, value)
  {
    var n := |steps| - 1;
    var before := Init(steps);
    assert forall i | 0 <= i < n :: steps[i] == before[i];
    if Gives(steps[n], product, field) {
      assert GivesLast(steps, product, field, n);
    } else {
      assert forall i :: GivesLast(steps, product, field, i) <==> GivesLast(before, product, field, i);
    }
  }

  lemma ValueAfterStep(t: Tables, soFar: Tables, step: Step, product: Id, field: Field, value: Id)
    requires StepAllowed(soFar, step) && ReadFrom(t, step) && product in Apply(soFar, step).products
    ensures product in soFar.products
    ensures HasValue(Apply(soFar, step).products, product, field, value)
            <==> if Gives(step, product, field) && field !in t.products[product].fields then step.mergeLoaded.fields[field] == value
                 else HasValue(soFar.products, product, field, value)
  {
  }

  lemma ReadBeforeInit(t: Tables, steps: seq<Step>)
    requires ReadBefore(t, steps) && steps != []
    ensures ReadBefore(t, Init(steps)) && ReadFrom(t, steps[|steps| - 1])
  {
    assert forall i | 0 <= i < |steps| - 1 :: steps[i] == Init(steps)[i];
  }

  /** Direct merges are all that counts: the value of a field is the product's own, else that of the last direct merge to give one. */
  lemma {:induction false} FieldAfterRun(t: Tables, steps: seq<Step>, product: Id, field: Field, value: Id)
    requires IsRun(t, steps) && ReadBefore(t, steps) && product in MergeAll(t, steps).products
    ensures product in t.products
    ensures HasValue(MergeAll(t, steps).products, product, field, value)
            <==> if field in t.products[product].fields then t.products[product].fields[field] == value
                 else Given(steps, product, field, value)
  {
    hide ReadBefore;
    hide Given;
    hide GivesLast;
    hide Merged;
    if steps == [] {
      NothingGiven(product, field, value);
    } else {
      ReadBeforeInit(t, steps);
      ValueAfterStep(t, MergeAll(t, Init(steps)), steps[|steps| - 1], product, field, value);
      FieldAfterRun(t, Init(steps), product, field, value);
      GivenByLast(steps, product, field, value);
    }
  }

  lemma NothingGiven(product: Id, field: Field, value: Id)
    ensures !Given([], product, field, value)
  {
  }

  /**
   * A survivor has a kind of field after the run exactly when it had it before
   * or a product merged directly into it did: what only deeper descendants held
   * is gone.
   */
  lemma FieldKeptExactly(t: Tables, steps: seq<Step>, product: Id, field: Field)
    requires IsRun(t, steps) && ReadBefore(t, steps) && product in MergeAll(t, steps).products
    ensures product in t.products
    ensures field in MergeAll(t, steps).products[product].fields
            <==> field in t.products[product].fields || exists i :: 0 <= i < |steps| && Gives(steps[i], product, field)
  {
    hide IsRun;
    hide MergeAll;
    hide ReadBefore;
    var after := MergeAll(t, steps).products;
    if field in after[product].fields {
      FieldAfterRun(t, steps, product, field, after[product].fields[field]);
    } else {
      FieldAfterRun(t, steps, product, field, 0);
      if exists i :: 0 <= i < |steps| && Gives(steps[i], product, field) {
        var i := LastGiver(steps, product, field);
        FieldAfterRun(t, steps, product, field, steps[i].mergeLoaded.fields[field]);
      }
    }
    if field in t.products[product].fields {
      FieldAfterRun(t, steps, product, field, t.products[product].fields[field]);
    }
  }

  lemma {:induction false} LastGiver(steps: seq<Step>, product: Id, field: Field) returns (i: nat)
    requires exists j :: 0 <= j < |steps| && Gives(steps[j], product, field)
    ensures GivesLast(steps, product, field, i)
  {
    i := |steps| - 1;
    if !Gives(steps[i], product, field) {
      var j :| 0 <= j < |steps| && Gives(steps[j], product, field);
      assert Init(steps)[j] == steps[j];
      i := LastGiver(Init(steps), product, field);
      assert forall k | 0 <= k < |steps| - 1 :: steps[k] == Init(steps)[k];
    }
  }

  /** The holder of a value is merged, at step `i`, into a survivor that lacks the field and is not given another value later. */
  ghost predicate HandedOn(t: Tables, after: Tables, steps: seq<Step>, holder: Id, field: Field, i: int) {
    && 0 <= i < |steps| && steps[i].merged == holder
    && steps[i].kept in t.products && steps[i].kept in after.products
    && field !in t.products[steps[i].kept].fields
    && forall j | i < j < |steps| :: !Gives(steps[j], steps[i].kept, field)
  }

  lemma OneHolder(products: map<Id, Product>, a: Id, b: Id, field: Field, value: Id)
    requires FieldsUnique(products) && field in UNIQUE_FIELDS
    requires HasValue(products, a, field, value) && HasValue(products, b, field, value)
    ensures a == b
  {
  }

  lemma FoundAfterRun(t: Tables, steps: seq<Step>, holder: Id, field: Field, value: Id, product: Id)
    requires IsRun(t, steps) && ReadBefore(t, steps) && FieldsUnique(t.products)
    requires field in UNIQUE_FIELDS && HasValue(t.products, holder, field, value)
    requires HasValue(MergeAll(t, steps).products, product, field, value)
    ensures product == holder || exists i :: HandedOn(t, MergeAll(t, steps), steps, holder, field, i)
  {
    hide IsRun;
    hide MergeAll;
    hide FieldsUnique;
    var after := MergeAll(t, steps);
    FieldAfterRun(t, steps, product, field, value);
    if field in t.products[product].fields {
      OneHolder(t.products, product, holder, field, value);
    } else {
      var i :| GivesLast(steps, product, field, i) && steps[i].mergeLoaded.fields[field] == value;
      assert ReadFrom(t, steps[i]);
      OneHolder(t.products, steps[i].merged, holder, field, value);
      assert HandedOn(t, after, steps, holder, field, i);
    }
  }

  lemma HandedOnIsFound(t: Tables, steps: seq<Step>, holder: Id, field: Field, value: Id, i: int)
    requires IsRun(t, steps) && ReadBefore(t, steps) && HasValue(t.products, holder, field, value)
    requires HandedOn(t, MergeAll(t, steps), steps, holder, field, i)
    ensures HasValue(MergeAll(t, steps).products, steps[i].kept, field, value)
  {
    hide IsRun;
    hide MergeAll;
    assert ReadFrom(t, steps[i]);
    assert GivesLast(steps, steps[i].kept, field, i);
    FieldAfterRun(t, steps, steps[i].kept, field, value);
  }

  /**
   * A unique identifier is still in the catalogue after the run exactly when its
   * holder survives, or is merged directly into a survivor that lacks one and is
   * given none later. The list of merges tells.
   */
  lemma IdentifierKeptExactly(t: Tables, steps: seq<Step>, holder: Id, field: Field, value: Id)
    requires IsRun(t, steps) && ReadBefore(t, steps) && FieldsUnique(t.products)
    requires field in UNIQUE_FIELDS && HasValue(t.products, holder, field, value)
    ensures (exists product :: HasValue(MergeAll(t, steps).products, product, field, value))
            <==> holder in MergeAll(t, steps).products
                 || exists i :: HandedOn(t, MergeAll(t, steps), steps, holder, field, i)
  {
    hide IsRun;
    hide MergeAll;
    hide ReadBefore;
    hide FieldsUnique;
    hide HandedOn;
    var after := MergeAll(t, steps);
    if exists product :: HasValue(after.products, product, field, value) {
      var product :| HasValue(after.products, product, field, value);
      FoundAfterRun(t, steps, holder, field, value, product);
    }
    if holder in after.products {
      FieldAfterRun(t, steps, holder, field, value);
    } else if exists i :: HandedOn(t, after, steps, holder, field, i) {
      var i :| HandedOn(t, after, steps, holder, field, i);
      HandedOnIsFound(t, steps, holder, field, value, i);
    }
  }

  lemma OneMerge(t: Tables, steps: seq<Step>, step: Step)
    requires IsRun(t, steps) && StepAllowed(MergeAll(t, steps), step)
    ensures step.kept in MergeAll(t, steps).products && step.kept != step.merged
    ensures IsRun(t, steps + [step]) && MergeAll(t, steps + [step]) == Apply(MergeAll(t, steps), step)
  {
    hide Merged;
    assert Init(steps + [step]) == steps;
  }

  /** Merging leaves the loaded rows of all but the two products as they are, and the keeper's as a part of it. */
  lemma StillAllowed(t: Tables, one: Step, two: Step)
    requires StepAllowed(t, one) && ReadFrom(t, one) && ReadFrom(t, two)
    requires one.kept == two.merged && two.kept != two.merged && two.kept != one.merged
    requires t.products[two.kept].createdAt <= t.products[two.merged].createdAt
    ensures StepAllowed(Apply(t, one), two)
  {
  }

  /**
   * So the promise that a merge loses no identifier fails in a run: whenever a
   * product is merged into an older one that lacks its identifier, and that one
   * into a still older one, the first keeper takes the identifier and the second
   * merge, which works on the row read before, loses it.
   */
  lemma IdentifierLostInOneRun(t: Tables, first: Id, middle: Id, last: Id, field: Field, value: Id) returns (steps: seq<Step>)
    requires FieldsUnique(t.products) && field in UNIQUE_FIELDS && HasValue(t.products, first, field, value)
    requires middle in t.products && last in t.products && first != middle && middle != last && first != last
    requires t.products[last].createdAt <= t.products[middle].createdAt <= t.products[first].createdAt
    requires field !in t.products[middle].fields
    ensures IsRun(t, steps) && ReadBefore(t, steps) && |steps| == 2
    ensures IsRun(t, steps[..1]) && HasValue(MergeAll(t, steps[..1]).products, middle, field, value)
    ensures forall product :: !HasValue(MergeAll(t, steps).products, product, field, value)
  {
    hide FieldsUnique;
    var one := Step(middle, first, t.products[middle], t.products[first], Ai);
    var two := Step(last, middle, t.products[last], t.products[middle], Ai);
    steps := [] + [one] + [two];
    assert steps[..1] == [] + [one];
    OneMerge(t, [], one);
    ValueAfterStep(t, t, one, middle, field, value);
    StillAllowed(t, one, two);
    OneMerge(t, [] + [one], two);
    RunMergesOnce(t, steps);
    assert steps[0] == one && steps[1] == two;
    hide IsRun;
    hide MergeAll;
    hide Merged;
    hide StepAllowed;
    IdentifierKeptExactly(t, steps, first, field, value);
    assert steps[0].merged !in MergeAll(t, steps).products && steps[1].merged !in MergeAll(t, steps).products;
  }

  // ----- attributes

  /** The step writes the attributes of `product`: the merged product has a key that the product's row lacks. */
  ghost predicate Writes(step: Step, product: Id) {
    step.kept == product && !(step.mergeLoaded.attributes.Keys <= step.keepLoaded.attributes.Keys)
  }

  ghost predicate WritesLast(steps: seq<Step>, product: Id, i: int) {
    0 <= i < |steps| && Writes(steps[i], product) && forall j | i < j < |steps| :: !Writes(steps[j], product)
  }

  lemma AttributesAfterStep(t: Tables, soFar: Tables, step: Step, product: Id)
    requires StepAllowed(soFar, step) && ReadFrom(t, step) && product in Apply(soFar, step).products
    ensures product in soFar.products && (step.kept == product ==> product in t.products)
    ensures Apply(soFar, step).products[product].attributes
            == if Writes(step, product) then step.mergeLoaded.attributes + t.products[product].attributes
               else soFar.products[product].attributes
  {
  }

  lemma LastToWrite(steps: seq<Step>, product: Id, i: int)
    requires steps != []
    ensures WritesLast(steps, product, i)
            <==> if Writes(steps[|steps| - 1], product) then i == |steps| - 1 else WritesLast(Init(steps), product, i)
    ensures WritesLast(steps, product, i) && i < |steps| - 1 ==> steps[i] == Init(steps)[i]
  {
    assert forall k | 0 <= k < |steps| - 1 :: steps[k] == Init(steps)[k];
  }

  /**
   * Attributes are written whole from the rows read before the run, so of all
   * products merged into a survivor only the last that brought a new key leaves
   * its attributes behind.
   */
  lemma {:induction false} AttributesAfterRun(t: Tables, steps: seq<Step>, product: Id)
    requires IsRun(t, steps) && ReadBefore(t, steps) && product in MergeAll(t, steps).products
    ensures product in t.products
    ensures (forall i | 0 <= i < |steps| :: !Writes(steps[i], product)) ==>
              MergeAll(t, steps).products[product].attributes == t.products[product].attributes
    ensures forall i :: WritesLast(steps, product, i) ==>
              MergeAll(t, steps).products[product].attributes
              == steps[i].mergeLoaded.attributes + t.products[product].attributes
  {
    hide ReadBefore;
    hide WritesLast;
    hide Writes;
    hide Merged;
    hide StepAllowed;
    if steps == [] {
      NobodyWrites(product);
    } else {
      var n, before := |steps| - 1, Init(steps);
      ReadBeforeInit(t, steps);
      AttributesAfterStep(t, MergeAll(t, before), steps[n], product);
      AttributesAfterRun(t, before, product);
      assert forall i | 0 <= i < n :: steps[i] == before[i];
      forall i ensures WritesLast(steps, product, i) ==> WritesBy(t, steps, product, i, MergeAll(t, steps).products[product].attributes) {
        LastToWrite(steps, product, i);
        WriterIndex(before, product, i);
      }
    }
  }

  lemma NobodyWrites(product: Id)
    ensures forall i :: !WritesLast([], product, i)
  {
  }

  ghost predicate WritesBy(t: Tables, steps: seq<Step>, product: Id, i: int, attributes: map<Id, Id>)
    requires product in t.products
  {
    0 <= i < |steps| && attributes == steps[i].mergeLoaded.attributes + t.products[product].attributes
  }

  lemma WriterIndex(steps: seq<Step>, product: Id, i: int)
    ensures WritesLast(steps, product, i) ==> 0 <= i < |steps|
  {
  }

  /** A survivor has an attribute key exactly when it had it before, or the last writing merge brought it. */
  lemma AttributeKeptExactly(t: Tables, steps: seq<Step>, product: Id, key: Id)
    requires IsRun(t, steps) && ReadBefore(t, steps) && product in MergeAll(t, steps).products
    ensures product in t.products
    ensures key in MergeAll(t, steps).products[product].attributes
            <==> key in t.products[product].attributes
                 || exists i :: WritesLast(steps, product, i) && key in steps[i].mergeLoaded.attributes
  {
    AttributesAfterRun(t, steps, product);
    hide IsRun;
    hide MergeAll;
    if exists i :: 0 <= i < |steps| && Writes(steps[i], product) {
      var i := LastWriter(steps, product);
    }
  }

  lemma {:induction false} LastWriter(steps: seq<Step>, product: Id) returns (i: nat)
    requires exists j :: 0 <= j < |steps| && Writes(steps[j], product)
    ensures WritesLast(steps, product, i)
  {
    i := |steps| - 1;
    if !Writes(steps[i], product) {
      var j :| 0 <= j < |steps| && Writes(steps[j], product);
      assert Init(steps)[j] == steps[j];
      i := LastWriter(Init(steps), product);
      assert forall k | 0 <= k < |steps| - 1 :: steps[k] == Init(steps)[k];
    }
  }
}
