/** The FHIR R4 records the ISiK bundle assembler reads and writes, reduced to
    the properties it touches.

    A JSON property that may be missing is an `Option`. A JSON array the code
    only reads through `x || []`, `Array.isArray(x)` or `x[0]` is a `seq`, with
    the missing array read as the empty one. The two resources the assembler
    changes in place on behalf of its caller (the QuestionnaireResponse and each
    Observation) are objects whose `data` field holds the current JSON content. */
module Fhir {
  import opened Common
  import opened Numbers

  datatype Coding = Coding(system: Option<string>, code: Option<string>, display: Option<string>)

  datatype CodeableConcept = CodeableConcept(coding: seq<Coding>, text: Option<string>)

  /** `Quantity.value`: a JSON number, or a string an upstream form left behind. */
  datatype QuantityValue = QNumber(number: Decimal) | QString(str: string)

  datatype Quantity = Quantity(
    value: Option<QuantityValue>,
    unit: Option<string>,
    code: Option<string>,
    system: Option<string>)

  /** A Reference; `refType` is the property FHIR calls `type`. */
  datatype Reference = Reference(reference: Option<string>, display: Option<string>, refType: Option<string>)

  /** A property that should hold a Reference but may also hold a bare string. */
  datatype RefField = RefAbsent | RefString(str: string) | RefObject(ref: Reference)

  datatype Identifier = Identifier(system: Option<string>, value: Option<string>, idType: Option<CodeableConcept>)

  datatype HumanName = HumanName(prefix: seq<string>, given: seq<string>, family: Option<string>, text: Option<string>)

  datatype Patient = Patient(
    resourceType: string,
    id: Option<string>,
    name: seq<HumanName>,
    birthDate: Option<string>,
    gender: Option<string>,
    identifier: seq<Identifier>)

  datatype Narrative = Narrative(status: string, div: string)

  datatype Period = Period(start: Option<string>, end: Option<string>)

  datatype Component = Component(code: Option<CodeableConcept>, valueQuantity: Option<Quantity>)

  /** An Observation, with the nine `value[x]` choices the assembler looks at. */
  datatype Observation = Observation(
    resourceType: Option<string>,
    id: Option<string>,
    code: Option<CodeableConcept>,
    valueString: Option<string>,
    valueBoolean: Option<bool>,
    valueInteger: Option<int>,
    valueDecimal: Option<Decimal>,
    valueCodeableConcept: Option<CodeableConcept>,
    valueQuantity: Option<Quantity>,
    valueDateTime: Option<string>,
    valueDate: Option<string>,
    valueTime: Option<string>,
    component: seq<Component>,
    derivedFrom: Option<seq<Reference>>,
    effectiveDateTime: Option<string>,
    effectivePeriod: Option<Period>,
    performer: seq<Reference>,
    text: Option<Narrative>)

  datatype Answer = Answer(
    valueString: Option<string>,
    valueBoolean: Option<bool>,
    valueInteger: Option<int>,
    valueDecimal: Option<Decimal>,
    valueDate: Option<string>,
    valueDateTime: Option<string>,
    valueTime: Option<string>,
    valueCoding: Option<Coding>,
    valueQuantity: Option<Quantity>,
    valueReference: Option<Reference>)

  /** A QuestionnaireResponse item with its answers and nested items. */
  datatype Item = Item(linkId: Option<string>, text: Option<string>, answer: seq<Answer>, item: seq<Item>)

  datatype Extension = Extension(url: Option<string>, valueString: Option<string>, valueCode: Option<string>)

  /** The primitive-element companion `_questionnaire` of `questionnaire`. */
  datatype Element = Element(id: Option<string>, extension: Option<seq<Extension>>)

  datatype Meta = Meta(profile: Option<seq<string>>, lastUpdated: Option<string>)

  datatype QuestionnaireResponse = QuestionnaireResponse(
    resourceType: Option<string>,
    id: Option<string>,
    questionnaire: Option<string>,
    questionnaireElement: Option<Element>,
    status: Option<string>,
    authored: Option<string>,
    subject: RefField,
    encounter: RefField,
    author: RefField,
    item: seq<Item>,
    text: Option<Narrative>,
    meta: Option<Meta>)

  /** The caller's QuestionnaireResponse object, updated in place. */
  class QuestionnaireResponseObject {
    var data: QuestionnaireResponse

    constructor (d: QuestionnaireResponse)
      ensures data == d
    {
      data := d;
    }
  }

  /** One of the caller's Observation objects, updated in place. */
  class ObservationObject {
    var data: Observation

    constructor (d: Observation)
      ensures data == d
    {
      data := d;
    }
  }

  datatype Section = Section(title: string, text: Narrative, entry: seq<Reference>)

  datatype Composition = Composition(
    id: string,
    status: string,
    identifier: Identifier,
    profile: seq<string>,
    compType: CodeableConcept,
    date: string,
    title: string,
    subject: Option<Reference>,
    encounter: Option<Reference>,
    author: seq<Reference>,
    section: seq<Section>,
    text: Option<Narrative>)

  /** What a Bundle entry holds: the QuestionnaireResponse entry is the caller's
      object itself, the other entries are values. */
  datatype Resource =
    | CompositionResource(composition: Composition)
    | PatientResource(patient: Patient)
    | QuestionnaireResponseResource(qr: QuestionnaireResponseObject)
    | ObservationResource(observation: Observation)

  datatype Entry = Entry(fullUrl: string, resource: Resource)

  datatype Bundle = Bundle(
    bundleType: string,
    timestamp: string,
    identifier: Identifier,
    profile: seq<string>,
    entry: seq<Entry>)

  /** `input.observations`: an array (whose elements may be null), a single
      object, or nothing. */
  datatype ObservationsArg =
    | NoObservations
    | OneObservation(single: ObservationObject)
    | ObservationList(items: seq<ObservationObject?>)

  datatype BuildMeta = BuildMeta(generatedAt: Option<string>, questionnaireTitle: Option<string>)

  datatype BuildInput = BuildInput(
    questionnaireResponse: QuestionnaireResponseObject?,
    observations: ObservationsArg,
    meta: BuildMeta)
}
