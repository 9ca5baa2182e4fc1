/** The pure helpers of the form page: base-URL normalisation and the choice of
    the SMART authorisation header, the parsing of launch-context references,
    the display of names and encounters and the entries a browse list shows
    for a search Bundle. The SMART session the page keeps in a module variable
    is a parameter here. */
module MainPage {
  import opened Common
  import opened Json
  import opened Fhir
  import Helpers
  import Smart
  import Resolve

  // ---------------------------------------------------------------------------
  // `normalizeBaseUrl`

  /** `(url || '').replace(/\/+$/, '')`: every trailing slash goes, and a missing
      or empty url gives `''`. */
  function NormalizeBaseUrl(url: Option<string>): (r: string)
    ensures !Truthy(url) ==> r == ""
    ensures |r| <= |OrEmpty(url)| && r == OrEmpty(url)[..|r|]
    ensures r == [] || r[|r| - 1] != '/'
    ensures forall k :: |r| <= k < |OrEmpty(url)| ==> OrEmpty(url)[k] == '/'
  {
    StripTrailingSlashesSpec(OrEmpty(url));
    StripTrailingSlashes(OrEmpty(url))
  }

  lemma NormalizeBaseUrlIdempotent(url: Option<string>)
    ensures NormalizeBaseUrl(Some(NormalizeBaseUrl(url))) == NormalizeBaseUrl(url)
  {
    StripTrailingSlashesIdempotent(OrEmpty(url));
  }

  /** A base with one more trailing slash normalises to the same string. */
  lemma NormalizeBaseUrlSlash(b: string)
    ensures NormalizeBaseUrl(Some(b + "/")) == NormalizeBaseUrl(Some(b))
  {
    var s := b + "/";
    assert s[..|s| - 1] == b;
  }

  /** The page's normalisation and the issuer normalisation of the SMART helpers
      agree, so the base the session was issued for and the base of a request
      are compared on equal terms. */
  lemma NormalizeBaseUrlIsIss(url: Option<string>)
    ensures NormalizeBaseUrl(url) == Smart.NormalizeIss(url)
  {
  }

  // ---------------------------------------------------------------------------
  // `getSmartAuthHeader`

  /** `getSmartAuthHeader(targetBase)` with `_smartSession` passed in: a header
      only for a session with an access token and a request to the very base the
      session was issued for. */
  function SmartAuthHeader(session: Option<Smart.Session>, targetBase: Option<string>): (r: Option<string>)
    ensures r.Some? <==>
      && session.Some? && session.value.accessToken != ""
      && NormalizeBaseUrl(session.value.iss) != ""
      && NormalizeBaseUrl(session.value.iss) == NormalizeBaseUrl(targetBase)
    ensures r.Some? ==>
      r.value == (if session.value.tokenType != "" then session.value.tokenType else "Bearer")
        + " " + session.value.accessToken
  {
    if session.None? || session.value.accessToken == "" then None
    else
      var sessionBase := NormalizeBaseUrl(session.value.iss);
      var compareBase := NormalizeBaseUrl(targetBase);
      if sessionBase == "" || compareBase == "" || sessionBase != compareBase then None
      else Some(Or(Some(session.value.tokenType), "Bearer") + " " + session.value.accessToken)
  }

  /** The header does not depend on trailing slashes of the request's base, and a
      request to the session's own issuer gets one whenever the issuer is more
      than slashes. */
  lemma SmartAuthHeaderBases(session: Smart.Session, b: string)
    requires session.accessToken != ""
    ensures SmartAuthHeader(Some(session), Some(b + "/")) == SmartAuthHeader(Some(session), Some(b))
    ensures NormalizeBaseUrl(session.iss) != "" ==> SmartAuthHeader(Some(session), session.iss).Some?
    ensures SmartAuthHeader(Some(session), None).None?
  {
    NormalizeBaseUrlSlash(b);
  }

  // ---------------------------------------------------------------------------
  // `normalizeSmartReference`

  /** The parsed reference: `id` and `resourceType` are `null` where the source
      leaves them so, and `absolute` is only set for http(s) urls. */
  datatype SmartRef = SmartRef(url: string, resourceType: Option<string>, id: Option<string>, absolute: bool)

  /** `/^(urn|oid|uuid):/i`. */
  predicate IsSchemeRef(s: string) {
    StartsWithIgnoreCase(s, "urn:") || StartsWithIgnoreCase(s, "oid:") || StartsWithIgnoreCase(s, "uuid:")
  }

  /** `String(ref).split('/').filter(Boolean)`. */
  function Segments(s: string): seq<string> {
    NonEmpty(Split(s, '/'))
  }

  /** `normalizeSmartReference(ref, fallbackType)`. */
  function NormalizeSmartReference(ref: Option<string>, fallbackType: Option<string>): (r: Option<SmartRef>)
    ensures r.None? <==> !Truthy(ref)
    ensures r.Some? ==> (r.value.absolute <==> Resolve.IsHttpUrl(ref.value))
    ensures r.Some? && (Resolve.IsHttpUrl(ref.value) || IsSchemeRef(ref.value)) ==>
      r.value.url == ref.value && r.value.resourceType.None? && r.value.id.None?
    ensures r.Some? && r.value.resourceType.Some? ==>
      r.value.id.Some? && r.value.url == r.value.resourceType.value + "/" + r.value.id.value
    ensures r.Some? && !Resolve.IsHttpUrl(ref.value) && !IsSchemeRef(ref.value) ==> r.value.id.Some?
  {
    if !Truthy(ref) then None
    else if Resolve.IsHttpUrl(ref.value) then Some(SmartRef(ref.value, None, None, true))
    else if IsSchemeRef(ref.value) then Some(SmartRef(ref.value, None, None, false))
    else
      var segments := Segments(ref.value);
      // `segments.slice(0, 2).join('/')`
      if |segments| >= 2 then Some(SmartRef(segments[0] + "/" + segments[1], Some(segments[0]), Some(segments[1]), false))
      else if Truthy(fallbackType) then Some(SmartRef(fallbackType.value + "/" + ref.value, fallbackType, ref, false))
      else Some(SmartRef(ref.value, None, ref, false))
  }

  /** `Type/id` is read as a type and an id, whatever the fallback type. */
  lemma ReferenceTypeAndId(t: string, i: string, fallbackType: Option<string>)
    requires t != "" && i != "" && '/' !in t && '/' !in i
    requires !Resolve.IsHttpUrl(t + "/" + i) && !IsSchemeRef(t + "/" + i)
    ensures NormalizeSmartReference(Some(t + "/" + i), fallbackType) == Some(SmartRef(t + "/" + i, Some(t), Some(i), false))
  {
    Resolve.SplitTwo(t, i, '/');
    assert t + "/" + i == t + ['/'] + i;
    NonEmptyKeeps([t, i]);
  }

  /** A leading slash and any segments after the second are dropped from the url:
      `/Type/id/_history/2` becomes `Type/id`. */
  lemma ReferenceFirstTwoSegments(t: string, i: string, rest: string, fallbackType: Option<string>)
    requires t != "" && i != "" && '/' !in t && '/' !in i
    ensures var ref := "/" + t + "/" + i + "/" + rest;
      NormalizeSmartReference(Some(ref), fallbackType) == Some(SmartRef(t + "/" + i, Some(t), Some(i), false))
  {
    var ref := "/" + t + "/" + i + "/" + rest;
    LeadingSlashSegments(t, i, rest);
    assert ref[0] == '/';
  }

  /** The segments of `/t/i/rest` start with `t` and `i`. */
  lemma LeadingSlashSegments(t: string, i: string, rest: string)
    requires t != "" && i != "" && '/' !in t && '/' !in i
    ensures var segs := Segments("/" + t + "/" + i + "/" + rest);
      |segs| >= 2 && segs[0] == t && segs[1] == i
  {
    var tail := Split(rest, '/');
    SplitLeadingSlash(t, i, rest);
    NonEmptyAfterHeads(t, i, tail);
  }

  lemma SplitLeadingSlash(t: string, i: string, rest: string)
    requires '/' !in t && '/' !in i
    ensures Split("/" + t + "/" + i + "/" + rest, '/') == [""] + ([t] + ([i] + Split(rest, '/')))
  {
    var ref := "/" + t + "/" + i + "/" + rest;
    assert ref == [] + ['/'] + (t + ['/'] + (i + ['/'] + rest));
    Resolve.SplitAfter([], '/', t + ['/'] + (i + ['/'] + rest));
    Resolve.SplitAfter(t, '/', i + ['/'] + rest);
    Resolve.SplitAfter(i, '/', rest);
  }

  lemma NonEmptyAfterHeads(t: string, i: string, tail: seq<string>)
    requires t != "" && i != ""
    ensures NonEmpty([""] + ([t] + ([i] + tail))) == [t] + ([i] + NonEmpty(tail))
  {
    var l2 := [i] + tail;
    var l1 := [t] + l2;
    var l0 := [""] + l1;
    assert l0[1..] == l1 && l0[0] == "";
    assert NonEmpty(l0) == NonEmpty(l1);
    assert l1[1..] == l2 && l1[0] == t;
    assert NonEmpty(l1) == [t] + NonEmpty(l2);
    assert l2[1..] == tail && l2[0] == i;
    assert NonEmpty(l2) == [i] + NonEmpty(tail);
  }

  /** A bare id takes the fallback type: `id` becomes `Type/id`. */
  lemma BareIdWithFallback(i: string, t: string)
    requires i != "" && '/' !in i && !Resolve.IsHttpUrl(i) && !IsSchemeRef(i) && t != ""
    ensures NormalizeSmartReference(Some(i), Some(t)) == Some(SmartRef(t + "/" + i, Some(t), Some(i), false))
    ensures NormalizeSmartReference(Some(i), None) == Some(SmartRef(i, None, Some(i), false))
  {
    Resolve.Split1(i, '/');
    NonEmptyKeeps([i]);
  }

  // ---------------------------------------------------------------------------
  // `humanNameToString` and `extractResourceName`

  /** A name as it may appear in a resource: absent or falsy, a plain string, or
      a HumanName object (`prefix`/`given` that are not arrays read as empty). */
  datatype NameValue = NoName | NameString(s: string) | NameObject(n: HumanName)

  predicate NameTruthy(n: NameValue) {
    match n
    case NoName => false
    case NameString(s) => s != ""
    case NameObject(_) => true
  }

  /** The parts joined for a name without `text`: the non-empty prefixes, the
      non-empty given names, then the family name if it is not empty. */
  function NameParts(n: HumanName): seq<string> {
    NonEmpty(n.prefix) + NonEmpty(n.given) + (if Truthy(n.family) then [n.family.value] else [])
  }

  /** What `humanNameToString` returns. */
  function NameText(name: NameValue): string {
    match name
    case NoName => ""
    case NameString(s) => s
    case NameObject(n) => if Truthy(n.text) then n.text.value else Trim(Join(NameParts(n), " "))
  }

  /** `humanNameToString(name)`, pushing the parts one list after the other. */
  method HumanNameToString(name: NameValue) returns (s: string)
    ensures s == NameText(name)
  {
    match name {
      case NoName =>
        s := "";
      case NameString(str) =>
        s := str;
      case NameObject(n) =>
        if Truthy(n.text) {
          s := n.text.value;
        } else {
          var parts: seq<string> := [];
          parts := parts + NonEmpty(n.prefix);
          parts := parts + NonEmpty(n.given);
          if Truthy(n.family) {
            parts := parts + [n.family.value];
          }
          assert parts == NameParts(n);
          s := Trim(Join(parts, " "));
        }
    }
  }

  /** Filtering a concatenation filters each part. */
  lemma {:induction false} NonEmptyConcat(a: seq<string>, b: seq<string>)
    ensures NonEmpty(a + b) == NonEmpty(a) + NonEmpty(b)
  {
    if a == [] {
      assert a + b == b;
    } else {
      assert (a + b)[0] == a[0];
      assert (a + b)[1..] == a[1..] + b;
      NonEmptyConcat(a[1..], b);
    }
  }

  /** A string comes back as it is, `text` wins, and a falsy name gives the
      empty string. */
  lemma NameTextSpec(name: NameValue)
    ensures name.NameString? ==> NameText(name) == name.s
    ensures name.NameObject? && Truthy(name.n.text) ==> NameText(name) == name.n.text.value
    ensures !NameTruthy(name) ==> NameText(name) == ""
  {
  }

  /** Without `text` the name reads like the patient-name line of the browse
      list (prefixes, given names and family name, blanks dropped), trimmed; a
      name with nothing to show gives the empty string. */
  lemma NameTextLine(n: HumanName)
    requires !Truthy(n.text)
    ensures NameText(NameObject(n)) == Trim(Helpers.NameLine(n))
    ensures NameParts(n) == [] ==> NameText(NameObject(n)) == ""
  {
    NonEmptyConcat(n.prefix + n.given, OptionToSeq(n.family));
    NonEmptyConcat(n.prefix, n.given);
    assert NonEmpty(OptionToSeq(n.family)) == (if Truthy(n.family) then [n.family.value] else []);
    assert NameParts(n) == NonEmpty(n.prefix + n.given + OptionToSeq(n.family));
    if NameParts(n) == [] {
      assert Join(NameParts(n), " ") == "";
      assert |Trim("")| == 0;
    }
  }

  /** The `name` property of a resource: missing, an array of names, or a single
      name. */
  datatype NameProperty = NameMissing | NameArray(names: seq<NameValue>) | NameSingle(name: NameValue)

  /** The `names` list `extractResourceName` builds; a missing resource has none. */
  function NameCandidates(resource: Option<NameProperty>): seq<NameValue> {
    if resource.None? then []
    else match resource.value
      case NameMissing => []
      case NameArray(ns) => ns
      case NameSingle(n) => if NameTruthy(n) then [n] else []
  }

  /** `names[k]` is the first name with a non-empty conversion. */
  predicate FirstWithText(names: seq<NameValue>, k: int) {
    0 <= k < |names| && NameText(names[k]) != "" && forall j :: 0 <= j < k ==> NameText(names[j]) == ""
  }

  /** `extractResourceName(resource)`: the first name with a non-empty
      conversion, or `''` when there is none. */
  method ExtractResourceName(resource: Option<NameProperty>) returns (r: string)
    ensures r != "" ==> exists k :: FirstWithText(NameCandidates(resource), k) && r == NameText(NameCandidates(resource)[k])
    ensures r == "" <==> forall k :: 0 <= k < |NameCandidates(resource)| ==> NameText(NameCandidates(resource)[k]) == ""
  {
    if resource.None? {
      return "";
    }
    var names: seq<NameValue> := [];
    match resource.value {
      case NameArray(ns) =>
        names := names + ns;
      case NameSingle(n) =>
        if NameTruthy(n) {
          names := names + [n];
        }
      case NameMissing =>
    }
    var i := 0;
    while i < |names|
      invariant 0 <= i <= |names|
      invariant names == NameCandidates(resource)
      invariant forall j :: 0 <= j < i ==> NameText(names[j]) == ""
    {
      var txt := HumanNameToString(names[i]);
      if txt != "" {
        assert FirstWithText(names, i);
        return txt;
      }
      i := i + 1;
    }
    return "";
  }

  // ---------------------------------------------------------------------------
  // `bundleEntries` of the page: the resolver's, without OperationOutcome

  predicate IsOutcome(j: Json) {
    Get(j, "resourceType") == JStr("OperationOutcome")
  }

  /** `.filter(res => res && res.resourceType !== 'OperationOutcome')`. */
  function DropOutcomes(rs: seq<Json>): (r: seq<Json>)
    ensures |r| <= |rs|
  {
    if rs == [] then []
    else if Falsy(rs[0]) || IsOutcome(rs[0]) then DropOutcomes(rs[1..])
    else [rs[0]] + DropOutcomes(rs[1..])
  }

  /** The filter keeps exactly the truthy resources that are not an
      OperationOutcome, and a list without such resources is kept whole. */
  lemma {:induction false} DropOutcomesSpec(rs: seq<Json>)
    ensures forall x :: x in DropOutcomes(rs) <==> x in rs && !Falsy(x) && !IsOutcome(x)
    ensures (forall k :: 0 <= k < |rs| ==> !Falsy(rs[k]) && !IsOutcome(rs[k])) ==> DropOutcomes(rs) == rs
  {
    if rs != [] {
      DropOutcomesSpec(rs[1..]);
      assert rs == [rs[0]] + rs[1..];
      assert forall x :: x in rs <==> x == rs[0] || x in rs[1..];
    }
  }

  /** `bundleEntries(bundle)` of the page; `None` where the `.map` throws. */
  function BundleEntries(bundle: Json): (r: Option<seq<Json>>)
    ensures r.None? <==> Resolve.BundleEntries(bundle).None?
    ensures !Resolve.IsBundle(bundle) ==> r == Some([])
  {
    match Resolve.BundleEntries(bundle)
    case None => None
    case Some(rs) => Some(DropOutcomes(rs))
  }

  /** The page lists what the resolver lists, minus the OperationOutcomes; a
      search Bundle of wrapped resources that holds none lists them all, in
      order. */
  lemma BundleEntriesSpec(bundle: Json)
    ensures BundleEntries(bundle).Some? ==> forall x :: x in BundleEntries(bundle).value <==>
      x in Resolve.BundleEntries(bundle).value && !IsOutcome(x)
  {
    match Resolve.BundleEntries(bundle)
    case None =>
    case Some(rs) =>
      DropOutcomesSpec(rs);
      Resolve.ResourcesSpec(rs);
      assert forall k :: 0 <= k < |rs| ==> !Falsy(rs[k]);
  }

  lemma BundleEntriesOfSearch(rs: seq<Json>)
    requires forall k :: 0 <= k < |rs| ==> !Falsy(rs[k]) && !IsOutcome(rs[k])
    ensures BundleEntries(Resolve.SearchBundle(Resolve.Wrapped(rs))) == Some(rs)
  {
    Resolve.BundleEntriesOfWrapped(rs);
    DropOutcomesSpec(rs);
  }

  // ---------------------------------------------------------------------------
  // Encounters: `getEncounterTitle` and `encounterDetails`

  /** The Encounter fields the page shows; `class` is looked for under
      `classCode` too, and an `identifier` that is not an array reads as empty. */
  datatype Encounter = Encounter(
    id: Option<string>,
    status: Option<string>,
    classCoding: Option<Coding>,
    classCode: Option<Coding>,
    period: Option<Period>,
    subject: Option<Reference>,
    identifier: seq<Identifier>,
    serviceType: Option<CodeableConcept>)

  /** `e.class || e.classCode`. */
  function ClassOf(e: Encounter): Option<Coding> {
    if e.classCoding.Some? then e.classCoding else e.classCode
  }

  /** `cls.display || cls.code`, shown when the class coding has either. */
  function ClassLabel(e: Encounter): (r: Option<string>)
    ensures Truthy(r) <==> ClassOf(e).Some? && (Truthy(ClassOf(e).value.display) || Truthy(ClassOf(e).value.code))
    ensures ClassOf(e).Some? && Truthy(ClassOf(e).value.display) ==> r == ClassOf(e).value.display
    ensures ClassOf(e).Some? && !Truthy(ClassOf(e).value.display) ==> r == ClassOf(e).value.code
    ensures ClassOf(e).None? ==> r.None?
  {
    match ClassOf(e)
    case None => None
    case Some(c) => OrElse(c.display, c.code)
  }

  /** A present, non-empty value as a one-element list. */
  function Present(o: Option<string>): seq<string> {
    if Truthy(o) then [o.value] else []
  }

  /** The `bits` of `getEncounterTitle`. */
  function TitleBits(e: Encounter): (r: seq<string>)
    ensures forall k :: 0 <= k < |r| ==> r[k] != ""
  {
    (if Truthy(e.id) then ["Encounter " + e.id.value] else []) + Present(e.status) + Present(ClassLabel(e))
  }

  /** `getEncounterTitle(e)`: `bits.join('  ') || '(Encounter)'`. */
  function EncounterTitle(e: Encounter): string {
    var t := Join(TitleBits(e), "  ");
    if t == "" then "(Encounter)" else t
  }

  lemma {:induction false} JoinStartsWith(parts: seq<string>, sep: string)
    requires parts != []
    ensures StartsWith(Join(parts, sep), parts[0])
  {
    if |parts| > 1 {
      assert Join(parts, sep) == parts[0] + (sep + Join(parts[1..], sep));
    }
  }

  /** The fallback title appears exactly when no part is there; otherwise the
      parts are joined by two spaces: the id first, then the status, then the
      class. */
  lemma EncounterTitleSpec(e: Encounter)
    ensures TitleBits(e) == [] ==> EncounterTitle(e) == "(Encounter)"
    ensures TitleBits(e) != [] ==> EncounterTitle(e) == Join(TitleBits(e), "  ")
    ensures Truthy(e.id) ==> StartsWith(EncounterTitle(e), "Encounter " + e.id.value)
    ensures !Truthy(e.id) && Truthy(e.status) ==> StartsWith(EncounterTitle(e), e.status.value)
    ensures TitleBits(e) == [] <==> !Truthy(e.id) && !Truthy(e.status) && !Truthy(ClassLabel(e))
  {
    JoinEmpty(TitleBits(e), "  ");
    if TitleBits(e) != [] {
      JoinStartsWith(TitleBits(e), "  ");
    }
  }

  /** With id, status and class all there, the title is all three. */
  lemma EncounterTitleFull(e: Encounter)
    requires Truthy(e.id) && Truthy(e.status) && Truthy(ClassLabel(e))
    ensures EncounterTitle(e) == "Encounter " + e.id.value + "  " + e.status.value + "  " + ClassLabel(e).value
  {
    var bits := TitleBits(e);
    assert bits == ["Encounter " + e.id.value, e.status.value, ClassLabel(e).value];
    assert bits[1..] == [bits[1], bits[2]] && bits[1..][1..] == [bits[2]];
    assert Join(bits[1..], "  ") == bits[1] + "  " + bits[2];
  }

  function PeriodStart(e: Encounter): Option<string> {
    if e.period.Some? then e.period.value.start else None
  }

  function PeriodEnd(e: Encounter): Option<string> {
    if e.period.Some? then e.period.value.end else None
  }

  /** The `Zeitraum` value: start and end, the empty ones dropped, joined by an
      arrow. */
  function PeriodText(e: Encounter): Option<string> {
    var st := PeriodStart(e);
    var en := PeriodEnd(e);
    if Truthy(st) || Truthy(en) then Some(Join(NonEmpty([OrEmpty(st), OrEmpty(en)]), " → ")) else None
  }

  lemma PeriodTextSpec(e: Encounter)
    ensures Truthy(PeriodText(e)) <==> Truthy(PeriodStart(e)) || Truthy(PeriodEnd(e))
    ensures Truthy(PeriodStart(e)) && Truthy(PeriodEnd(e)) ==>
      PeriodText(e) == Some(PeriodStart(e).value + " → " + PeriodEnd(e).value)
    ensures Truthy(PeriodStart(e)) && !Truthy(PeriodEnd(e)) ==> PeriodText(e) == PeriodStart(e)
    ensures !Truthy(PeriodStart(e)) && Truthy(PeriodEnd(e)) ==> PeriodText(e) == PeriodEnd(e)
  {
    var xs := [OrEmpty(PeriodStart(e)), OrEmpty(PeriodEnd(e))];
    assert xs[1..] == [xs[1]];
    assert NonEmpty([xs[1]]) == if xs[1] == "" then [] else [xs[1]] by {
      assert [xs[1]][1..] == [];
    }
    if xs[0] != "" && xs[1] != "" {
      assert NonEmpty(xs) == xs;
      assert Join(xs, " → ") == xs[0] + " → " + xs[1];
    }
  }

  /** The `Subject` value: the display, else the reference. */
  function SubjectText(e: Encounter): Option<string> {
    if e.subject.Some? then OrElse(e.subject.value.display, e.subject.value.reference) else None
  }

  /** The `Service` row: the first coding's display or code, even when both are
      empty, else the text. */
  function ServiceRows(e: Encounter): (r: seq<(string, string)>)
    ensures |r| <= 1 && forall k :: 0 <= k < |r| ==> r[k].0 == "Service"
    ensures e.serviceType.None? ==> r == []
    ensures e.serviceType.Some? && e.serviceType.value.coding != [] ==>
      var stc := e.serviceType.value.coding[0];
      |r| == 1 && r[0].1 == (if Truthy(stc.display) then stc.display.value else if Truthy(stc.code) then stc.code.value else "")
    ensures e.serviceType.Some? && e.serviceType.value.coding == [] ==>
      (r != [] <==> Truthy(e.serviceType.value.text)) && (r != [] ==> r[0].1 == e.serviceType.value.text.value)
  {
    if e.serviceType.Some? && |e.serviceType.value.coding| > 0 then
      var stc := e.serviceType.value.coding[0];
      [("Service", Or(stc.display, OrEmpty(stc.code)))]
    else if e.serviceType.Some? && Truthy(e.serviceType.value.text) then [("Service", e.serviceType.value.text.value)]
    else []
  }

  /** The conditional rows of `encounterDetails`, in push order. */
  function DetailCandidates(e: Encounter): seq<(string, Option<string>)> {
    [("ID", e.id), ("Status", e.status), ("Klasse", ClassLabel(e)), ("Zeitraum", PeriodText(e)),
     ("Subject", SubjectText(e)), ("Identifier", Helpers.IdentifierSummary(e.identifier))]
  }

  function EncounterRows(e: Encounter): seq<(string, string)> {
    Rows(DetailCandidates(e)) + ServiceRows(e)
  }

  /** `encounterDetails(e)`: the rows pushed one field after the other. */
  method EncounterDetails(e: Encounter) returns (rows: seq<(string, string)>)
    ensures rows == EncounterRows(e)
  {
    ghost var c := DetailCandidates(e);
    rows := [];
    rows := Helpers.PushIfSet(rows, "ID", e.id);
    rows := Helpers.PushIfSet(rows, "Status", e.status);
    rows := Helpers.PushIfSet(rows, "Klasse", ClassLabel(e));
    rows := Helpers.PushIfSet(rows, "Zeitraum", PeriodText(e));
    rows := Helpers.PushIfSet(rows, "Subject", SubjectText(e));
    rows := Helpers.PushIfSet(rows, "Identifier", Helpers.IdentifierSummary(e.identifier));
    assert rows == Rows([c[0]]) + Rows([c[1]]) + Rows([c[2]]) + Rows([c[3]]) + Rows([c[4]]) + Rows([c[5]]);
    DetailRowsPushed(c);
    assert rows == Rows(c);
    if e.serviceType.Some? && |e.serviceType.value.coding| > 0 {
      var stc := e.serviceType.value.coding[0];
      rows := rows + [("Service", Or(stc.display, OrEmpty(stc.code)))];
    } else if e.serviceType.Some? && Truthy(e.serviceType.value.text) {
      rows := rows + [("Service", e.serviceType.value.text.value)];
    }
  }

  /** Six pushes in a row give the rows of the six candidates. */
  lemma DetailRowsPushed(c: seq<(string, Option<string>)>)
    requires |c| == 6
    ensures Rows([c[0]]) + Rows([c[1]]) + Rows([c[2]]) + Rows([c[3]]) + Rows([c[4]]) + Rows([c[5]]) == Rows(c)
  {
    assert c == [c[0]] + [c[1]] + [c[2]] + [c[3]] + [c[4]] + [c[5]];
    RowsConcat([c[0]] + [c[1]] + [c[2]] + [c[3]] + [c[4]], [c[5]]);
    RowsConcat([c[0]] + [c[1]] + [c[2]] + [c[3]], [c[4]]);
    RowsConcat([c[0]] + [c[1]] + [c[2]], [c[3]]);
    RowsConcat([c[0]] + [c[1]], [c[2]]);
    RowsConcat([c[0]], [c[1]]);
  }

  /** The `ID`, `Status` and `Klasse` rows: each at most once, with the field's
      value exactly when that is present and non-empty. */
  lemma EncounterRowsFields(e: Encounter)
    ensures forall v :: ("ID", v) in EncounterRows(e) <==> e.id == Some(v) && v != ""
    ensures forall v :: ("Status", v) in EncounterRows(e) <==> e.status == Some(v) && v != ""
    ensures forall v :: ("Klasse", v) in EncounterRows(e) <==> ClassLabel(e) == Some(v) && v != ""
  {
    var c := DetailCandidates(e);
    Resolve.RowOfDistinctKey(c, 0);
    Resolve.RowOfDistinctKey(c, 1);
    Resolve.RowOfDistinctKey(c, 2);
  }

  /** The `Zeitraum`, `Subject` and `Identifier` rows likewise; identifiers are
      listed as `system|value`, comma-separated, whenever there is one. */
  lemma EncounterRowsDerived(e: Encounter)
    ensures forall v :: ("Zeitraum", v) in EncounterRows(e) <==> PeriodText(e) == Some(v) && v != ""
    ensures forall v :: ("Subject", v) in EncounterRows(e) <==> SubjectText(e) == Some(v) && v != ""
    ensures forall v :: ("Identifier", v) in EncounterRows(e) <==>
      |e.identifier| > 0 && v == Join(Helpers.IdentifierTexts(e.identifier), ", ")
  {
    var c := DetailCandidates(e);
    Resolve.RowOfDistinctKey(c, 3);
    Resolve.RowOfDistinctKey(c, 4);
    Resolve.RowOfDistinctKey(c, 5);
  }

  /** The `Service` row comes last and is the only one that may be empty. */
  lemma EncounterRowsService(e: Encounter)
    ensures var rows := EncounterRows(e);
      forall k :: 0 <= k < |rows| && rows[k].0 != "Service" ==> rows[k].1 != "" && k < |Rows(DetailCandidates(e))|
  {
  }
}
