/** Sanitising the Observations before they go into the bundle: linkage through
    `derivedFrom` is dropped and quantity values written as numeric strings
    (with '.' or ',' as decimal mark) become numbers; and the value test that
    decides which Observations are kept. */
module IsikNormalize {
  import opened Common
  import opened Numbers
  import opened Fhir

  /** `hasTopLevelValue`: one of the nine `value[x]` properties is present
      (a `false`, `0` or empty string counts). */
  predicate HasTopLevelValue(o: Observation) {
    || o.valueString.Some?
    || o.valueBoolean.Some?
    || o.valueInteger.Some?
    || o.valueDecimal.Some?
    || o.valueCodeableConcept.Some?
    || o.valueQuantity.Some?
    || o.valueDateTime.Some?
    || o.valueDate.Some?
    || o.valueTime.Some?
  }

  /** The exact number a numeric string denotes. */
  function NumericValue(s: string): Decimal
    requires IsNumericString(s)
  {
    RenderLex(Trim(s));
    LexemeValue(Lex(Trim(s)).value)
  }

  /** `normalizeQuantity`: a numeric-string value has its first ',' turned into
      '.' and is replaced by `Number()` of the result unless that is NaN. */
  function NormalizeQuantity(q: Quantity): Quantity {
    match q.value
    case Some(QString(s)) =>
      if IsNumericString(s) then
        match StringToNumber(ReplaceFirst(s, ',', '.'))
        case Some(d) => q.(value := Some(QNumber(d)))
        case None => q
      else q
    case _ => q
  }

  /** A numeric string becomes the number it denotes, whichever decimal mark it
      uses; any other value, and unit, code and system, stay as they are. */
  lemma NormalizeQuantitySpec(q: Quantity)
    ensures q.value.Some? && q.value.value.QString? && IsNumericString(q.value.value.str) ==>
      NormalizeQuantity(q) == q.(value := Some(QNumber(NumericValue(q.value.value.str))))
    ensures !(q.value.Some? && q.value.value.QString? && IsNumericString(q.value.value.str)) ==>
      NormalizeQuantity(q) == q
  {
    if q.value.Some? && q.value.value.QString? && IsNumericString(q.value.value.str) {
      CommaFixValue(q.value.value.str);
    }
  }

  /** A second normalisation changes nothing: the value is no longer a string. */
  lemma NormalizeQuantityIdempotent(q: Quantity)
    ensures NormalizeQuantity(NormalizeQuantity(q)) == NormalizeQuantity(q)
  {
    NormalizeQuantitySpec(q);
  }

  function NormalizeOptionalQuantity(q: Option<Quantity>): Option<Quantity> {
    if q.Some? then Some(NormalizeQuantity(q.value)) else None
  }

  function NormalizeComponent(c: Component): Component {
    c.(valueQuantity := NormalizeOptionalQuantity(c.valueQuantity))
  }

  function NormalizeComponents(cs: seq<Component>): (r: seq<Component>)
    ensures |r| == |cs| && forall k :: 0 <= k < |cs| ==> r[k] == NormalizeComponent(cs[k])
  {
    seq(|cs|, k requires 0 <= k < |cs| => NormalizeComponent(cs[k]))
  }

  /** `normalizeObservation` on the JSON content. */
  function Normalized(o: Observation): Observation {
    if o.resourceType != Some("Observation") then o
    else o.(derivedFrom := None,
            valueQuantity := NormalizeOptionalQuantity(o.valueQuantity),
            component := NormalizeComponents(o.component))
  }

  /** `normalizeObservation(obs)`: updates the caller's object in place. */
  method NormalizeObservation(obs: ObservationObject)
    modifies obs
    ensures obs.data == Normalized(old(obs.data))
  {
    if obs.data.resourceType != Some("Observation") {
      return;
    }
    if obs.data.derivedFrom.Some? {
      obs.data := obs.data.(derivedFrom := None);
    }
    if obs.data.valueQuantity.Some? {
      obs.data := obs.data.(valueQuantity := Some(NormalizeQuantity(obs.data.valueQuantity.value)));
    }
    var comps := NormalizeEachComponent(obs.data.component);
    obs.data := obs.data.(component := comps);
  }

  /** The `component.forEach` pass, on the component list. */
  method NormalizeEachComponent(cs: seq<Component>) returns (comps: seq<Component>)
    ensures comps == NormalizeComponents(cs)
  {
    comps := cs;
    var i := 0;
    while i < |comps|
      invariant |comps| == |cs|
      invariant 0 <= i <= |cs|
      invariant forall k :: 0 <= k < i ==> comps[k] == NormalizeComponent(cs[k])
      invariant forall k :: i <= k < |cs| ==> comps[k] == cs[k]
    {
      var c := comps[i];
      if c.valueQuantity.Some? {
        comps := comps[i := NormalizeComponent(c)];
      }
      i := i + 1;
    }
  }

  /** Normalising twice is normalising once. */
  lemma NormalizedIdempotent(o: Observation)
    ensures Normalized(Normalized(o)) == Normalized(o)
  {
    if o.resourceType == Some("Observation") {
      if o.valueQuantity.Some? {
        NormalizeQuantityIdempotent(o.valueQuantity.value);
      }
      var cs := Normalized(o).component;
      forall k | 0 <= k < |cs|
        ensures NormalizeComponent(cs[k]) == cs[k]
      {
        if o.component[k].valueQuantity.Some? {
          NormalizeQuantityIdempotent(o.component[k].valueQuantity.value);
        }
      }
      assert NormalizeComponents(cs) == cs;
    }
  }

  /** Normalising never adds or removes a value, so the value test gives the
      same answer before and after. */
  lemma NormalizedKeepsValue(o: Observation)
    ensures HasTopLevelValue(Normalized(o)) == HasTopLevelValue(o)
  {
  }

  /** What normalisation changes: only Observations, and of them only
      `derivedFrom` (removed), the quantity value and the component values;
      everything else, including `resourceType`, `id` and `text`, is kept. */
  lemma NormalizedFrame(o: Observation)
    ensures o.resourceType != Some("Observation") ==> Normalized(o) == o
    ensures o.resourceType == Some("Observation") ==> Normalized(o).derivedFrom.None?
    ensures Normalized(o).(derivedFrom := o.derivedFrom, valueQuantity := o.valueQuantity, component := o.component) == o
    ensures |Normalized(o).component| == |o.component|
    ensures forall k :: 0 <= k < |o.component| ==>
      Normalized(o).component[k].code == o.component[k].code
  {
  }

  /** The quantity of an Observation, and of each of its components, holds the
      number its numeric string denoted. */
  lemma NormalizedQuantities(o: Observation)
    requires o.resourceType == Some("Observation")
    ensures forall q, s :: o.valueQuantity == Some(q) && q.value == Some(QString(s)) && IsNumericString(s) ==>
      Normalized(o).valueQuantity == Some(q.(value := Some(QNumber(NumericValue(s)))))
    ensures forall k, q, s ::
      (0 <= k < |o.component| && o.component[k].valueQuantity == Some(q)
       && q.value == Some(QString(s)) && IsNumericString(s)) ==>
      Normalized(o).component[k].valueQuantity == Some(q.(value := Some(QNumber(NumericValue(s)))))
  {
    forall q, s | o.valueQuantity == Some(q) && q.value == Some(QString(s)) && IsNumericString(s)
      ensures Normalized(o).valueQuantity == Some(q.(value := Some(QNumber(NumericValue(s)))))
    {
      NormalizeQuantitySpec(q);
    }
    forall k, q, s | 0 <= k < |o.component| && o.component[k].valueQuantity == Some(q)
      && q.value == Some(QString(s)) && IsNumericString(s)
      ensures Normalized(o).component[k].valueQuantity == Some(q.(value := Some(QNumber(NumericValue(s)))))
    {
      NormalizeQuantitySpec(q);
    }
  }
}
