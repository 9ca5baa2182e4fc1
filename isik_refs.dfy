/** Reading references out of a QuestionnaireResponse: the subject and encounter
    copies, the author display, and the patient id found by the pattern
    `(^|\/)Patient\/([^\/?#]+)` (matched ignoring case) that decides whether the
    bundle gets a Patient stub. */
module IsikRefs {
  import opened Common
  import opened Fhir

  const DefaultAuthor: string := "LHC-Forms Demo App"
  const SourceIdSystem: string := "urn:source-id"

  // ---------------------------------------------------------------------------
  // Subject, encounter and author

  /** `resolveSubjectFromQR` / `resolveEncounterFromQR`: a reference object is
      copied with only its `reference` and `display`; a bare string becomes the
      reference; anything else gives nothing. */
  function CopyReference(f: RefField): (r: Option<Reference>)
    ensures r.Some? <==> !f.RefAbsent?
    ensures r.Some? ==> r.value.refType.None?
    ensures f.RefObject? ==> r.value.reference == f.ref.reference && r.value.display == f.ref.display
    ensures f.RefString? ==> r.value.reference == Some(f.str) && r.value.display.None?
  {
    match f
    case RefAbsent => None
    case RefString(s) => Some(Reference(Some(s), None, None))
    case RefObject(x) => Some(Reference(x.reference, x.display, None))
  }

  /** The author shown in the document header: the author's display, else its
      reference, else the bare string, else the demo application's name. */
  function AuthorDisplay(f: RefField): (r: string)
    ensures r != ""
    ensures f.RefObject? && Truthy(f.ref.display) ==> r == f.ref.display.value
    ensures f.RefObject? && !Truthy(f.ref.display) && Truthy(f.ref.reference) ==> r == f.ref.reference.value
    ensures f.RefString? && f.str != "" ==> r == f.str
    ensures r != DefaultAuthor ==> !f.RefAbsent?
  {
    match f
    case RefAbsent => DefaultAuthor
    case RefString(s) => Or(Some(s), DefaultAuthor)
    case RefObject(x) => Or(x.display, Or(x.reference, DefaultAuthor))
  }

  // ---------------------------------------------------------------------------
  // The Patient/<id> pattern

  /** A character of `[^\/?#]`. */
  predicate IdChar(c: char) {
    c != '/' && c != '?' && c != '#'
  }

  /** The greedy run `[^\/?#]*` at the start of `t`. */
  function IdRun(t: string): (r: string)
    ensures |r| <= |t| && r == t[..|r|]
    ensures forall k :: 0 <= k < |r| ==> IdChar(r[k])
    ensures |r| < |t| ==> !IdChar(t[|r|])
  {
    if t == [] || !IdChar(t[0]) then [] else [t[0]] + IdRun(t[1..])
  }

  /** The reference prefix the pattern looks for, in any letter case. */
  const PatientRefPrefix: string := "Patient/"

  /** One match attempt of the pattern starting at position `p`: the `^`
      alternative first, then the `\/` alternative. */
  function MatchAt(s: string, p: nat): Option<string>
    requires p <= |s|
  {
    if p == 0 && StartsWithIgnoreCase(s, PatientRefPrefix) && IdRun(s[8..]) != [] then
      Some(IdRun(s[8..]))
    else if p < |s| && s[p] == '/' && StartsWithIgnoreCase(s[p + 1..], PatientRefPrefix)
      && IdRun(s[p + 9..]) != [] then
      Some(IdRun(s[p + 9..]))
    else None
  }

  /** `String.prototype.match`: the leftmost start position that matches. */
  function Search(s: string, p: nat): Option<string>
    requires p <= |s| + 1
    decreases |s| + 1 - p
  {
    if p > |s| then None
    else if MatchAt(s, p).Some? then MatchAt(s, p)
    else Search(s, p + 1)
  }

  /** Group 2 of the first match, if there is one. */
  function PatientIdFromReference(s: string): (r: Option<string>)
    ensures r.Some? ==> r.value != [] && forall k :: 0 <= k < |r.value| ==> IdChar(r.value[k])
  {
    SearchIds(s, 0);
    Search(s, 0)
  }

  lemma {:induction false} SearchIds(s: string, p: nat)
    requires p <= |s| + 1
    ensures var r := Search(s, p); r.Some? ==> r.value != [] && forall k :: 0 <= k < |r.value| ==> IdChar(r.value[k])
    decreases |s| + 1 - p
  {
    if p <= |s| && MatchAt(s, p).None? {
      SearchIds(s, p + 1);
    }
  }

  /** "Patient/" (in any letter case) starts at `q`, at the beginning of the
      string or right after a '/', and at least one id character follows. */
  predicate PatientRefAt(s: string, q: nat) {
    && q + 8 < |s|
    && (q == 0 || s[q - 1] == '/')
    && StartsWithIgnoreCase(s[q..], PatientRefPrefix)
    && IdChar(s[q + 8])
  }

  /** No reference position lies before `p`. */
  predicate NoRefBefore(s: string, p: nat) {
    forall q: nat :: q < p ==> !PatientRefAt(s, q)
  }

  /** `q` is the leftmost such position. */
  predicate FirstPatientRef(s: string, q: nat) {
    PatientRefAt(s, q) && NoRefBefore(s, q)
  }

  lemma RunNonEmpty(s: string, k: nat)
    requires k <= |s|
    ensures IdRun(s[k..]) != [] <==> k < |s| && IdChar(s[k])
  {
    if k < |s| {
      assert s[k..][0] == s[k];
    }
  }

  lemma FirstAlternative(s: string)
    ensures (StartsWithIgnoreCase(s, PatientRefPrefix) && IdRun(s[8..]) != []) <==> PatientRefAt(s, 0)
  {
    if |s| >= 8 {
      RunNonEmpty(s, 8);
      assert s[0..] == s;
    }
  }

  lemma SecondAlternative(s: string, p: nat)
    requires p < |s|
    ensures (s[p] == '/' && StartsWithIgnoreCase(s[p + 1..], PatientRefPrefix) && IdRun(s[p + 9..]) != [])
      <==> PatientRefAt(s, p + 1)
  {
    if p + 9 <= |s| {
      RunNonEmpty(s, p + 9);
    }
  }

  /** Searching from `p` on, when no reference position up to `p` exists. */
  lemma {:induction false} SearchSpec(s: string, p: nat)
    requires p <= |s| + 1
    requires p == 0 || NoRefBefore(s, p + 1)
    ensures Search(s, p).Some? <==> exists q: nat :: PatientRefAt(s, q)
    ensures Search(s, p).Some? ==> exists q: nat :: FirstPatientRef(s, q) && Search(s, p) == Some(IdRun(s[q + 8..]))
    decreases |s| + 1 - p
  {
    if p > |s| {
      assert forall q: nat :: !PatientRefAt(s, q);
    } else if MatchAt(s, p).Some? {
      var q := MatchFirst(s, p);
      assert PatientRefAt(s, q);
    } else {
      NoMatchExtends(s, p);
      if p == |s| {
        assert forall q: nat :: !PatientRefAt(s, q);
      } else {
        SearchSpec(s, p + 1);
      }
    }
  }

  /** One match attempt, read as reference positions: `p` itself only at the
      start of the string, else the position after `p`. */
  lemma MatchAtSpec(s: string, p: nat)
    requires p <= |s|
    ensures MatchAt(s, p) ==
      if p == 0 && PatientRefAt(s, 0) then Some(IdRun(s[8..]))
      else if p < |s| && PatientRefAt(s, p + 1) then Some(IdRun(s[p + 9..]))
      else None
  {
    if p == 0 {
      FirstAlternative(s);
    }
    if p < |s| {
      SecondAlternative(s, p);
    }
  }

  /** A match at `p` is at the leftmost reference position. */
  lemma MatchFirst(s: string, p: nat) returns (q: nat)
    requires p <= |s| && (p == 0 || NoRefBefore(s, p + 1)) && MatchAt(s, p).Some?
    ensures FirstPatientRef(s, q) && MatchAt(s, p) == Some(IdRun(s[q + 8..]))
  {
    MatchAtSpec(s, p);
    if p == 0 && PatientRefAt(s, 0) {
      q := 0;
    } else {
      q := p + 1;
    }
  }

  /** No match at `p` leaves no reference position before `p + 2`. */
  lemma NoMatchExtends(s: string, p: nat)
    requires p <= |s| && (p == 0 || NoRefBefore(s, p + 1)) && MatchAt(s, p).None?
    ensures NoRefBefore(s, p + 2)
  {
    MatchAtSpec(s, p);
    forall q: nat | q < p + 2
      ensures !PatientRefAt(s, q)
    {
      if q == p + 1 {
        assert !PatientRefAt(s, p + 1);
      } else if p == 0 {
        assert q == 0;
      }
    }
  }

  /** The pattern finds an id exactly when the string has a reference position,
      and the id is the run of id characters after the leftmost one. */
  lemma PatientIdSpec(s: string)
    ensures PatientIdFromReference(s).Some? <==> exists q: nat :: PatientRefAt(s, q)
    ensures PatientIdFromReference(s).Some? ==>
      exists q: nat :: FirstPatientRef(s, q) && PatientIdFromReference(s) == Some(IdRun(s[q + 8..]))
  {
    SearchSpec(s, 0);
  }

  /** The Patient stub the bundle carries for a matched id. */
  function PatientStub(pid: string): (p: Patient)
    ensures p.id == Some(pid) && p.name == [] && p.birthDate.None?
    ensures p.identifier == [Identifier(Some(SourceIdSystem), Some(pid), None)]
  {
    Patient("Patient", Some(pid), [], None, None, [Identifier(Some(SourceIdSystem), Some(pid), None)])
  }
}
