/** The resolver page: it joins the FHIR base with search paths, reads the
    resources of a search Bundle, decides which lookups the launch parameters
    need (patient by `pid`, account by `fid`, questionnaire by canonical),
    applies the search results to its copy of the parameters and redirects to
    the form page once nothing is left to resolve. The searches themselves are
    a function from URL to response, passed in. */
module Resolve {
  import opened Common
  import opened Json
  import opened UriEncoding
  import Helpers

  // ---------------------------------------------------------------------------
  // `makeAbs(base, pathOrUrl)`

  /** `/^https?:/i`: "http", an optional "s", then ':', the letters in either
      case. */
  predicate IsHttpUrl(s: string) {
    && |s| >= 5
    && LowerChar(s[0]) == 'h' && LowerChar(s[1]) == 't' && LowerChar(s[2]) == 't' && LowerChar(s[3]) == 'p'
    && (s[4] == ':' || (|s| >= 6 && LowerChar(s[4]) == 's' && s[5] == ':'))
  }

  /** `s.replace(/\/?$/, '')`: one trailing slash at most is removed. */
  function DropTrailingSlash(s: string): string {
    if |s| > 0 && s[|s| - 1] == '/' then s[..|s| - 1] else s
  }

  /** `s.replace(/^\//, '')`: one leading slash at most is removed. */
  function DropLeadingSlash(s: string): string {
    if |s| > 0 && s[0] == '/' then s[1..] else s
  }

  /** The URL a search path denotes relative to the base: no path gives the base,
      an absolute http(s) URL is taken as it is, anything else is appended to the
      base with exactly one slash between them. */
  function MakeAbs(base: Option<string>, path: Option<string>): (r: Option<string>)
    ensures !Truthy(path) ==> r == base
    ensures Truthy(path) ==> r.Some?
    ensures Truthy(path) && IsHttpUrl(path.value) ==> r == path
  {
    if !Truthy(path) then base
    else if IsHttpUrl(path.value) then path
    else Some(DropTrailingSlash(OrEmpty(base)) + "/" + DropLeadingSlash(path.value))
  }

  /** Whether the base ends in a slash or not and whether the path starts with
      one or not, the result has exactly one slash between them; a second
      trailing slash of the base is kept, and a missing base reads as empty. */
  lemma MakeAbsJoin(b: string, p: string)
    requires p != "" && p[0] != '/' && !IsHttpUrl(p)
    requires b == [] || b[|b| - 1] != '/'
    ensures MakeAbs(Some(b), Some(p)) == Some(b + "/" + p)
    ensures MakeAbs(Some(b + "/"), Some(p)) == Some(b + "/" + p)
    ensures MakeAbs(Some(b), Some("/" + p)) == Some(b + "/" + p)
    ensures MakeAbs(Some(b + "/"), Some("/" + p)) == Some(b + "/" + p)
    ensures MakeAbs(Some(b + "//"), Some(p)) == Some(b + "//" + p)
    ensures MakeAbs(None, Some(p)) == Some("/" + p)
  {
    SlashedPath(p);
    BaseEnds(b);
    assert b + "/" + "/" + p == b + "//" + p;
    assert "" + "/" + p == "/" + p;
  }

  /** A path with a leading slash is not absolute and loses that slash. */
  lemma SlashedPath(p: string)
    ensures !IsHttpUrl("/" + p) && DropLeadingSlash("/" + p) == p
  {
    assert ("/" + p)[0] == '/';
  }

  /** One trailing slash is dropped from a base, a second one is kept. */
  lemma BaseEnds(b: string)
    requires b == [] || b[|b| - 1] != '/'
    ensures DropTrailingSlash(b) == b
    ensures DropTrailingSlash(b + "/") == b
    ensures DropTrailingSlash(b + "//") == b + "/"
  {
    assert (b + "/")[..|b|] == b;
    assert (b + "//")[..|b| + 1] == b + "/";
  }

  // ---------------------------------------------------------------------------
  // `bundleEntries(bundle)`

  predicate IsBundle(j: Json) {
    Get(j, "resourceType") == JStr("Bundle")
  }

  /** `bundle.entry || []`; `None` where the value is truthy but not an array,
      so that the `.map` that follows throws. */
  function EntryList(bundle: Json): Option<seq<Json>> {
    var e := Get(bundle, "entry");
    if Falsy(e) then Some([]) else if e.JArr? then Some(e.items) else None
  }

  /** `e && (e.resource || e)`. */
  function Unwrap(e: Json): Json {
    if Falsy(e) then e else OrJson(Get(e, "resource"), e)
  }

  /** The unwrapped entries with the falsy ones dropped (`filter(Boolean)`). */
  function Resources(entries: seq<Json>): (r: seq<Json>)
    ensures |r| <= |entries|
    ensures forall k :: 0 <= k < |r| ==> !Falsy(r[k])
  {
    if entries == [] then []
    else
      var u := Unwrap(entries[0]);
      (if Falsy(u) then [] else [u]) + Resources(entries[1..])
  }

  /** The resources of a search Bundle; anything but a Bundle has none, and
      `None` stands for the exception of an `entry` that is not an array. */
  function BundleEntries(bundle: Json): (r: Option<seq<Json>>)
    ensures !IsBundle(bundle) ==> r == Some([])
    ensures r.None? <==> IsBundle(bundle) && EntryList(bundle).None?
  {
    if !IsBundle(bundle) then Some([])
    else match EntryList(bundle)
      case None => None
      case Some(es) => Some(Resources(es))
  }

  /** A truthy entry never unwraps to a falsy value: exactly the falsy entries
      are dropped. */
  lemma UnwrapTruthy(e: Json)
    ensures Falsy(Unwrap(e)) <==> Falsy(e)
  {
  }

  /** The resources are exactly the unwrapped truthy entries. */
  lemma {:induction false} ResourcesSpec(entries: seq<Json>)
    ensures forall x :: x in Resources(entries) <==>
      exists i :: 0 <= i < |entries| && !Falsy(entries[i]) && x == Unwrap(entries[i])
  {
    if entries != [] {
      ResourcesSpec(entries[1..]);
      UnwrapTruthy(entries[0]);
      forall x | x in Resources(entries)
        ensures exists i :: 0 <= i < |entries| && !Falsy(entries[i]) && x == Unwrap(entries[i])
      {
        if !(!Falsy(entries[0]) && x == Unwrap(entries[0])) {
          assert x in Resources(entries[1..]);
          var i :| 0 <= i < |entries[1..]| && !Falsy(entries[1..][i]) && x == Unwrap(entries[1..][i]);
          assert entries[i + 1] == entries[1..][i];
        }
      }
      forall x | exists i :: 0 <= i < |entries| && !Falsy(entries[i]) && x == Unwrap(entries[i])
        ensures x in Resources(entries)
      {
        var i :| 0 <= i < |entries| && !Falsy(entries[i]) && x == Unwrap(entries[i]);
        if i > 0 {
          assert entries[1..][i - 1] == entries[i];
        }
      }
    }
  }

  /** Entries of the form `{resource: r}`. */
  function Wrapped(rs: seq<Json>): (r: seq<Json>)
    ensures |r| == |rs|
  {
    if rs == [] then [] else [JObj([Field("resource", rs[0])])] + Wrapped(rs[1..])
  }

  /** A Bundle whose entries wrap truthy resources yields those resources, in
      order. */
  lemma {:induction false} ResourcesOfWrapped(rs: seq<Json>)
    requires forall k :: 0 <= k < |rs| ==> !Falsy(rs[k])
    ensures Resources(Wrapped(rs)) == rs
  {
    if rs != [] {
      var w := Wrapped(rs);
      assert w[1..] == Wrapped(rs[1..]);
      assert Unwrap(w[0]) == rs[0];
      ResourcesOfWrapped(rs[1..]);
    }
  }

  function SearchBundle(entries: seq<Json>): Json {
    JObj([Field("resourceType", JStr("Bundle")), Field("entry", JArr(entries))])
  }

  lemma BundleEntriesOfWrapped(rs: seq<Json>)
    requires forall k :: 0 <= k < |rs| ==> !Falsy(rs[k])
    ensures BundleEntries(SearchBundle(Wrapped(rs))) == Some(rs)
  {
    var fs := [Field("resourceType", JStr("Bundle")), Field("entry", JArr(Wrapped(rs)))];
    assert Lookup(fs, "resourceType") == Some(JStr("Bundle"));
    assert Lookup(fs, "entry") == Some(JArr(Wrapped(rs))) by {
      assert fs[0].key != "entry";
      assert fs[1..] == [Field("entry", JArr(Wrapped(rs)))];
    }
    assert EntryList(SearchBundle(Wrapped(rs))) == Some(Wrapped(rs));
    ResourcesOfWrapped(rs);
  }

  // ---------------------------------------------------------------------------
  // The parameters

  /** The launch parameters of the page; `account` is what the account lookup
      adds. */
  datatype Params = Params(
    base: Option<string>,
    prepopBase: Option<string>,
    pid: Option<string>,
    fid: Option<string>,
    qCanonical: Option<string>,
    patient: Option<string>,
    encounter: Option<string>,
    user: Option<string>,
    id: Option<string>,
    q: Option<string>,
    minimal: Option<string>,
    account: Option<string>)

  /** The questionnaire is looked up only when neither `q` nor `id` names it. */
  predicate NeedQ(p: Params) {
    !Truthy(p.q) && !Truthy(p.id) && Truthy(p.qCanonical)
  }

  /** The patient is looked up only when it is not given. */
  predicate NeedPatient(p: Params) {
    !Truthy(p.patient) && Truthy(p.pid)
  }

  /** The account is looked up whenever `fid` is given. */
  predicate NeedAccount(p: Params) {
    Truthy(p.fid)
  }

  // ---------------------------------------------------------------------------
  // `buildRedirectUrl(out)`: the query parameters of the form page

  const RedirectKeys: seq<string> := ["q", "base", "id", "prepopBase", "patient", "encounter", "user", "account", "minimal"]

  function RedirectCandidates(p: Params): (r: seq<(string, Option<string>)>)
    ensures |r| == |RedirectKeys| && forall k :: 0 <= k < |r| ==> r[k].0 == RedirectKeys[k]
  {
    [("q", p.q), ("base", p.base), ("id", p.id), ("prepopBase", p.prepopBase),
     ("patient", p.patient), ("encounter", p.encounter), ("user", p.user), ("account", p.account),
     ("minimal", if p.minimal == Some("true") then Some("true") else None)]
  }

  /** The `URLSearchParams` of the redirect, in the order they are set. */
  function RedirectParams(p: Params): seq<(string, string)> {
    Rows(RedirectCandidates(p))
  }

  /** A key that occurs once among the candidates gets a row exactly when its
      value is present and not empty. */
  lemma RowOfDistinctKey(cands: seq<(string, Option<string>)>, i: nat)
    requires i < |cands|
    requires forall j :: 0 <= j < |cands| && j != i ==> cands[j].0 != cands[i].0
    ensures forall v :: (cands[i].0, v) in Rows(cands) <==> cands[i].1 == Some(v) && v != ""
  {
    RowsSpec(cands);
  }

  lemma RedirectKeysDistinct()
    ensures forall i, j :: 0 <= i < j < |RedirectKeys| ==> RedirectKeys[i] != RedirectKeys[j]
  {
  }

  /** The row of the `i`-th key is there exactly when its value is present and
      not empty. */
  lemma RedirectRow(p: Params, i: nat)
    requires i < |RedirectKeys|
    ensures forall v :: (RedirectKeys[i], v) in RedirectParams(p) <==> RedirectCandidates(p)[i].1 == Some(v) && v != ""
  {
    RedirectKeysDistinct();
    RowOfDistinctKey(RedirectCandidates(p), i);
  }

  /** Each parameter is set exactly when its value is present and not empty,
      and `minimal` only when it equals `'true'`. */
  lemma RedirectParamsSpec(p: Params)
    ensures forall v :: ("q", v) in RedirectParams(p) <==> p.q == Some(v) && v != ""
    ensures forall v :: ("base", v) in RedirectParams(p) <==> p.base == Some(v) && v != ""
    ensures forall v :: ("id", v) in RedirectParams(p) <==> p.id == Some(v) && v != ""
    ensures forall v :: ("prepopBase", v) in RedirectParams(p) <==> p.prepopBase == Some(v) && v != ""
    ensures forall v :: ("patient", v) in RedirectParams(p) <==> p.patient == Some(v) && v != ""
    ensures forall v :: ("encounter", v) in RedirectParams(p) <==> p.encounter == Some(v) && v != ""
    ensures forall v :: ("user", v) in RedirectParams(p) <==> p.user == Some(v) && v != ""
    ensures forall v :: ("account", v) in RedirectParams(p) <==> p.account == Some(v) && v != ""
    ensures forall v :: ("minimal", v) in RedirectParams(p) <==> v == "true" && p.minimal == Some("true")
  {
    RedirectRow(p, 0);
    RedirectRow(p, 1);
    RedirectRow(p, 2);
    RedirectRow(p, 3);
    RedirectRow(p, 4);
    RedirectRow(p, 5);
    RedirectRow(p, 6);
    RedirectRow(p, 7);
    RedirectRow(p, 8);
  }

  /** No other key appears, and the parameters follow the fixed order q, base,
      id, prepopBase, patient, encounter, user, account, minimal: for every cut
      of that list the rows of the keys before the cut come first. */
  lemma RedirectParamsOrder(p: Params)
    ensures forall k :: 0 <= k < |RedirectParams(p)| ==> RedirectParams(p)[k].0 in RedirectKeys
    ensures forall n :: 0 <= n <= |RedirectKeys| ==>
      RedirectParams(p) == Rows(RedirectCandidates(p)[..n]) + Rows(RedirectCandidates(p)[n..])
  {
    var c := RedirectCandidates(p);
    RowKeys(c, RedirectKeys);
    forall n | 0 <= n <= |RedirectKeys|
      ensures RedirectParams(p) == Rows(c[..n]) + Rows(c[n..])
    {
      assert c == c[..n] + c[n..];
      RowsConcat(c[..n], c[n..]);
    }
  }

  /** Every row carries the key of one of the candidates. */
  lemma {:induction false} RowKeys(cands: seq<(string, Option<string>)>, keys: seq<string>)
    requires forall i :: 0 <= i < |cands| ==> cands[i].0 in keys
    ensures forall k :: 0 <= k < |Rows(cands)| ==> Rows(cands)[k].0 in keys
  {
    if cands != [] {
      RowKeys(cands[1..], keys);
    }
  }

  // ---------------------------------------------------------------------------
  // The searches (runResolution, the part before the fetches)

  /** `qCanonical` split at '|' into url and version; without '|' there is no
      version. */
  function CanonicalParts(c: string): (string, Option<string>) {
    if '|' in c then
      SplitSeparated(c, '|');
      var parts := Split(c, '|');
      (parts[0], Some(parts[1]))
    else (c, None)
  }

  /** A string containing the separator splits into at least two pieces. */
  lemma {:induction false} SplitSeparated(s: string, c: char)
    requires c in s
    ensures |Split(s, c)| >= 2
  {
    if s[0] != c {
      assert c in s[1..];
      SplitSeparated(s[1..], c);
    }
  }

  /** The url is the text before the first '|', the version the text between it
      and the next '|' or the end; neither contains '|'. */
  lemma CanonicalPartsSpec(c: string)
    ensures CanonicalParts(c).1.Some? <==> '|' in c
    ensures '|' !in c ==> CanonicalParts(c).0 == c
    ensures '|' !in CanonicalParts(c).0
    ensures CanonicalParts(c).1.Some? ==>
      var (u, v) := (CanonicalParts(c).0, CanonicalParts(c).1.value);
      && '|' !in v
      && u + "|" + v <= c
      && (|c| == |u| + 1 + |v| || c[|u| + 1 + |v|] == '|')
  {
    if '|' in c {
      SplitSeparated(c, '|');
      var parts := Split(c, '|');
      JoinSplit(c, '|');
      SplitPiecesFree(c, '|');
      JoinTwoHeads(parts, ['|']);
    }
  }

  /** A join of at least two parts starts with the first two and the separator
      between them, followed by the end or the separator again. */
  lemma JoinTwoHeads(parts: seq<string>, sep: string)
    requires |parts| >= 2
    ensures parts[0] + sep + parts[1] <= Join(parts, sep)
    ensures |parts| == 2 ==> Join(parts, sep) == parts[0] + sep + parts[1]
    ensures |parts| > 2 ==> Join(parts, sep) == parts[0] + sep + parts[1] + sep + Join(parts[2..], sep)
  {
    assert Join(parts[1..], sep) == if |parts| == 2 then parts[1] else parts[1] + sep + Join(parts[2..], sep);
  }

  /** Splitting after a piece without the separator. */
  lemma {:induction false} SplitAfter(u: string, c: char, rest: string)
    requires c !in u
    ensures Split(u + [c] + rest, c) == [u] + Split(rest, c)
  {
    var s := u + [c] + rest;
    if u == [] {
      assert s[0] == c && s[1..] == rest;
    } else {
      assert s[0] == u[0] && s[1..] == u[1..] + [c] + rest;
      SplitAfter(u[1..], c, rest);
      assert [u[0]] + u[1..] == u;
    }
  }

  /** `url|version` and `url|version|more` give the url and the version. */
  lemma CanonicalOfMore(u: string, v: string, more: string)
    requires '|' !in u && '|' !in v
    ensures CanonicalParts(u + "|" + v) == (u, Some(v))
    ensures CanonicalParts(u + "|" + v + "|" + more) == (u, Some(v))
  {
    var c := u + "|" + v;
    assert c[|u|] == '|';
    SplitAfter(u, '|', v);
    Split1(v, '|');
    var d := u + "|" + v + "|" + more;
    assert d == u + ['|'] + (v + ['|'] + more);
    assert d[|u|] == '|';
    SplitAfter(u, '|', v + ['|'] + more);
    SplitAfter(v, '|', more);
  }

  /** A string without the separator is one piece. */
  lemma {:induction false} Split1(v: string, c: char)
    requires c !in v
    ensures Split(v, c) == [v]
  {
    if v != [] {
      Split1(v[1..], c);
      assert [v[0]] + v[1..] == v;
    }
  }

  function PatientSearch(pid: string): string {
    "Patient?identifier=" + EncodeURIComponent(pid)
  }

  function AccountSearch(fid: string): string {
    "Account?identifier=" + EncodeURIComponent(fid)
  }

  const QuestionnaireByUrl: string := "Questionnaire?url="
  const VersionParameter: string := "version="

  /** Neither fixed part of the questionnaire search holds '&'. */
  lemma SearchPartsPlain()
    ensures '&' !in QuestionnaireByUrl && '&' !in VersionParameter
  {
  }

  /** The questionnaire search: by url, and by version only when the canonical
      has a non-empty one. */
  function QuestionnaireSearch(canonical: string): string {
    var (u, v) := CanonicalParts(canonical);
    if Truthy(v) then QuestionnaireByUrl + EncodeURIComponent(u) + "&" + VersionParameter + EncodeURIComponent(v.value)
    else QuestionnaireByUrl + EncodeURIComponent(u)
  }

  /** `encodeURIComponent` never produces '&', so an encoded value cannot start
      another search parameter. */
  lemma EncodedNoAmpersand(s: string)
    ensures '&' !in EncodeURIComponent(s)
  {
    Helpers.KeepingNothing(s);
    Helpers.KeepingChars(s, {});
    Helpers.QueryTextSeparators(EncodeURIComponent(s));
  }

  /** A canonical without '|' searches by url only, as does one whose version is
      empty. */
  lemma QuestionnaireSearchPlain(u: string)
    requires '|' !in u
    ensures QuestionnaireSearch(u) == QuestionnaireByUrl + EncodeURIComponent(u)
    ensures QuestionnaireSearch(u + "|") == QuestionnaireByUrl + EncodeURIComponent(u)
  {
    CanonicalOfMore(u, "", "");
    assert u + "|" + "" == u + "|";
  }

  /** With a version the search has exactly the two parameters url and version. */
  lemma QuestionnaireSearchVersioned(u: string, v: string)
    requires '|' !in u && '|' !in v && v != ""
    ensures QuestionnaireSearch(u + "|" + v) == QuestionnaireByUrl + EncodeURIComponent(u) + "&" + VersionParameter + EncodeURIComponent(v)
    ensures Split(QuestionnaireSearch(u + "|" + v), '&') ==
      [QuestionnaireByUrl + EncodeURIComponent(u), VersionParameter + EncodeURIComponent(v)]
  {
    QuestionnaireSearchOfVersion(u, v);
    var a := QuestionnaireByUrl + EncodeURIComponent(u);
    SearchPartsPlain();
    EncodedNoAmpersand(u);
    EncodedNoAmpersand(v);
    SplitParameters(a, VersionParameter, EncodeURIComponent(v));
  }

  lemma QuestionnaireSearchOfVersion(u: string, v: string)
    requires '|' !in u && '|' !in v && v != ""
    ensures QuestionnaireSearch(u + "|" + v) == QuestionnaireByUrl + EncodeURIComponent(u) + "&" + VersionParameter + EncodeURIComponent(v)
  {
    CanonicalOfMore(u, v, "");
  }

  /** Two parameters joined by '&' split back into the two. */
  lemma SplitParameters(a: string, name: string, value: string)
    requires '&' !in a && '&' !in name && '&' !in value
    ensures Split(a + "&" + name + value, '&') == [a, name + value]
  {
    assert a + "&" + name + value == a + ['&'] + (name + value);
    SplitTwo(a, name + value, '&');
  }

  lemma SplitTwo(a: string, b: string, c: char)
    requires c !in a && c !in b
    ensures Split(a + [c] + b, c) == [a, b]
  {
    assert Join([a, b], [c]) == a + [c] + b;
    SplitJoin([a, b], c);
  }

  /** The three lookups; `Name` is the key the page uses for each. */
  datatype LookupKey = PatientLookup | AccountLookup | QuestionnaireLookup {
    function Name(): string {
      match this
      case PatientLookup => "patient"
      case AccountLookup => "account"
      case QuestionnaireLookup => "questionnaire"
    }

    /** The position of a lookup in the order they are planned. */
    function Rank(): nat {
      match this
      case PatientLookup => 0
      case AccountLookup => 1
      case QuestionnaireLookup => 2
    }
  }

  /** One planned search: the lookup it serves and the URL it fetches. */
  datatype Search = Search(key: LookupKey, url: string)

  function SearchUrl(base: Option<string>, path: string): string
    requires path != ""
  {
    MakeAbs(base, Some(path)).value
  }

  function PatientTask(p: Params): seq<Search> {
    if NeedPatient(p) then [Search(PatientLookup, SearchUrl(p.base, PatientSearch(p.pid.value)))] else []
  }

  function AccountTask(p: Params): seq<Search> {
    if NeedAccount(p) then [Search(AccountLookup, SearchUrl(p.base, AccountSearch(p.fid.value)))] else []
  }

  function QuestionnaireTask(p: Params): seq<Search> {
    if NeedQ(p) then [Search(QuestionnaireLookup, SearchUrl(p.base, QuestionnaireSearch(p.qCanonical.value)))] else []
  }

  /** The searches as the tasks list holds them. */
  function PlannedSearches(p: Params): seq<Search> {
    PatientTask(p) + AccountTask(p) + QuestionnaireTask(p)
  }

  /** Each lookup is planned exactly when it is needed, at most once, and in
      the order patient, account, questionnaire. */
  lemma PlannedSearchesSpec(p: Params)
    ensures NeedPatient(p) <==> exists k :: 0 <= k < |PlannedSearches(p)| && PlannedSearches(p)[k].key == PatientLookup
    ensures NeedAccount(p) <==> exists k :: 0 <= k < |PlannedSearches(p)| && PlannedSearches(p)[k].key == AccountLookup
    ensures NeedQ(p) <==> exists k :: 0 <= k < |PlannedSearches(p)| && PlannedSearches(p)[k].key == QuestionnaireLookup
    ensures forall i, j :: 0 <= i < j < |PlannedSearches(p)| ==> PlannedSearches(p)[i].key.Rank() < PlannedSearches(p)[j].key.Rank()
  {
    var a, b, c := PatientTask(p), AccountTask(p), QuestionnaireTask(p);
    ThreeTasks(a, b, c);
    assert PlannedSearches(p) == a + b + c;
  }

  /** Each planned search fetches the URL of its lookup's search. */
  lemma PlannedSearchUrls(p: Params)
    ensures forall s :: s in PlannedSearches(p) ==> match s.key
      case PatientLookup => NeedPatient(p) && s.url == SearchUrl(p.base, PatientSearch(p.pid.value))
      case AccountLookup => NeedAccount(p) && s.url == SearchUrl(p.base, AccountSearch(p.fid.value))
      case QuestionnaireLookup => NeedQ(p) && s.url == SearchUrl(p.base, QuestionnaireSearch(p.qCanonical.value))
  {
    var a, b, c := PatientTask(p), AccountTask(p), QuestionnaireTask(p);
    assert PlannedSearches(p) == a + b + c;
  }

  /** The key of an index depends only on which of the three groups holds
      it. */
  lemma ThreeTasksAt(a: seq<Search>, b: seq<Search>, c: seq<Search>, k: int)
    requires forall s :: s in a ==> s.key == PatientLookup
    requires forall s :: s in b ==> s.key == AccountLookup
    requires forall s :: s in c ==> s.key == QuestionnaireLookup
    requires 0 <= k < |a + b + c|
    ensures (a + b + c)[k].key.Rank() == (if k < |a| then 0 else if k < |a| + |b| then 1 else 2)
  {
    var r := a + b + c;
    if k < |a| {
      assert r[k] == a[k];
      assert a[k] in a;
    } else if k < |a| + |b| {
      assert r[k] == b[k - |a|];
      assert b[k - |a|] in b;
    } else {
      assert r[k] == c[k - |a| - |b|];
      assert c[k - |a| - |b|] in c;
    }
  }

  /** Three optional tasks, one after the other: a task of each kind is there
      exactly when its part is not empty, and the ranks increase. */
  lemma ThreeTasks(a: seq<Search>, b: seq<Search>, c: seq<Search>)
    requires |a| <= 1 && |b| <= 1 && |c| <= 1
    requires forall s :: s in a ==> s.key == PatientLookup
    requires forall s :: s in b ==> s.key == AccountLookup
    requires forall s :: s in c ==> s.key == QuestionnaireLookup
    ensures a != [] <==> exists k :: 0 <= k < |a + b + c| && (a + b + c)[k].key == PatientLookup
    ensures b != [] <==> exists k :: 0 <= k < |a + b + c| && (a + b + c)[k].key == AccountLookup
    ensures c != [] <==> exists k :: 0 <= k < |a + b + c| && (a + b + c)[k].key == QuestionnaireLookup
    ensures forall i, j :: 0 <= i < j < |a + b + c| ==> (a + b + c)[i].key.Rank() < (a + b + c)[j].key.Rank()
  {
    var r := a + b + c;
    forall k | 0 <= k < |r|
      ensures r[k].key.Rank() == (if k < |a| then 0 else if k < |a| + |b| then 1 else 2)
    {
      ThreeTasksAt(a, b, c, k);
    }
    if a != [] {
      assert r[0].key.Rank() == 0;
    }
    if b != [] {
      assert r[|a|].key.Rank() == 1;
    }
    if c != [] {
      assert r[|a| + |b|].key.Rank() == 2;
    }
  }

  /** A search path is appended to a base without a trailing slash after one
      slash. */
  lemma SearchUrlOfBase(b: string, path: string)
    requires b == [] || b[|b| - 1] != '/'
    requires path != "" && path[0] != '/' && !IsHttpUrl(path)
    ensures SearchUrl(Some(b), path) == b + "/" + path
    ensures SearchUrl(Some(b + "/"), path) == b + "/" + path
  {
    MakeAbsJoin(b, path);
  }

  /** None of the three search paths is an absolute URL or starts with '/'. */
  lemma SearchPathsRelative(pid: string, fid: string, canonical: string)
    ensures !IsHttpUrl(PatientSearch(pid)) && PatientSearch(pid)[0] == 'P'
    ensures !IsHttpUrl(AccountSearch(fid)) && AccountSearch(fid)[0] == 'A'
    ensures !IsHttpUrl(QuestionnaireSearch(canonical)) && QuestionnaireSearch(canonical)[0] == 'Q'
  {
  }

  /** The tasks list, pushed search by search. */
  method PlanSearches(params: Params) returns (tasks: seq<Search>)
    ensures tasks == PlannedSearches(params)
  {
    var out := params;
    tasks := [];
    if !Truthy(out.patient) && Truthy(out.pid) {
      tasks := tasks + [Search(PatientLookup, SearchUrl(out.base, PatientSearch(out.pid.value)))];
    }
    assert tasks == PatientTask(params);
    if Truthy(out.fid) {
      tasks := tasks + [Search(AccountLookup, SearchUrl(out.base, AccountSearch(out.fid.value)))];
    }
    assert tasks == PatientTask(params) + AccountTask(params);
    if !Truthy(out.q) && !Truthy(out.id) && Truthy(out.qCanonical) {
      var search := QuestionnaireSearch(out.qCanonical.value);
      tasks := tasks + [Search(QuestionnaireLookup, SearchUrl(out.base, search))];
    }
  }

  // ---------------------------------------------------------------------------
  // Applying the search results

  /** What a fetch gives: the parsed Bundle, or the message of its error. */
  datatype Fetch = Got(bundle: Json) | Failed(message: string)

  /** Where the loop over the results stands: still running with the choices
      offered so far, stopped with the status message it set, or thrown (an
      `entry` that is not an array). Each carries the parameters as far as the
      loop had updated them. */
  datatype Progress =
    | Running(out: Params, choices: seq<(LookupKey, seq<Json>)>)
    | Stopped(message: string, out: Params)
    | Threw(out: Params)

  /** `items[0].id`; an id that is not a string is not modelled and reads as
      missing. */
  function IdOf(j: Json): Option<string> {
    if Get(j, "id").JStr? then Some(Get(j, "id").s) else None
  }

  /** The field a lookup fills. */
  function Pick(p: Params, key: LookupKey, id: Option<string>): Params {
    match key
    case PatientLookup => p.(patient := id)
    case AccountLookup => p.(account := id)
    case QuestionnaireLookup => p.(id := id)
  }

  function NotFoundMessage(key: LookupKey): string {
    match key
    case PatientLookup => "Kein Patient für pid gefunden."
    case AccountLookup => "Kein Account für fid gefunden."
    case QuestionnaireLookup => "Kein Questionnaire für qCanonical gefunden."
  }

  function ErrorMessage(key: LookupKey, msg: string): string {
    "Fehler bei " + key.Name() + "-Suche: " + msg
  }

  /** One result: an error stops, no hit stops with the lookup's message, one
      hit fills the lookup's field, several hits are offered as a choice. */
  function Step(pr: Progress, key: LookupKey, f: Fetch): Progress
    requires pr.Running?
  {
    match f
    case Failed(msg) => Stopped(ErrorMessage(key, msg), pr.out)
    case Got(bundle) =>
      match BundleEntries(bundle)
      case None => Threw(pr.out)
      case Some(items) =>
        if |items| == 0 then Stopped(NotFoundMessage(key), pr.out)
        else if |items| == 1 then Running(Pick(pr.out, key, IdOf(items[0])), pr.choices)
        else Running(pr.out, pr.choices + [(key, items)])
  }

  /** The results one after the other, until one stops the loop. */
  function ApplyAll(pr: Progress, results: seq<(LookupKey, Fetch)>): Progress
    decreases |results|
  {
    if !pr.Running? || results == [] then pr
    else ApplyAll(Step(pr, results[0].0, results[0].1), results[1..])
  }

  /** A lookup that found exactly one resource with an id is resolved, and the
      other lookups stay as they were. */
  lemma UniqueHitResolves(pr: Progress, key: LookupKey, bundle: Json, item: Json)
    requires pr.Running?
    requires BundleEntries(bundle) == Some([item]) && Truthy(IdOf(item))
    ensures Step(pr, key, Got(bundle)) == Running(Pick(pr.out, key, IdOf(item)), pr.choices)
    ensures key !in UnresolvedOf(Step(pr, key, Got(bundle)).out)
    ensures forall other :: other != key ==>
      (other in UnresolvedOf(Step(pr, key, Got(bundle)).out) <==> other in UnresolvedOf(pr.out))
  {
    UnresolvedSpec(pr.out);
    UnresolvedSpec(Pick(pr.out, key, IdOf(item)));
  }

  /** An error or an empty result after results that let the loop run on stops
      it with the status message of that result. */
  lemma {:induction false} ApplyAllStops(pr: Progress, results: seq<(LookupKey, Fetch)>, i: nat)
    requires pr.Running? && i < |results|
    requires ApplyAll(pr, results[..i]).Running?
    requires results[i].1.Failed? || (results[i].1.Got? && BundleEntries(results[i].1.bundle) == Some([]))
    ensures ApplyAll(pr, results).Stopped?
    ensures results[i].1.Failed? ==> ApplyAll(pr, results).message == ErrorMessage(results[i].0, results[i].1.message)
    ensures results[i].1.Got? ==> ApplyAll(pr, results).message == NotFoundMessage(results[i].0)
    decreases i
  {
    if i == 0 {
      assert results[..0] == [];
    } else {
      assert results[..i][0] == results[0] && results[..i][1..] == results[1..][..i - 1];
      var next := Step(pr, results[0].0, results[0].1);
      ApplyAllStops(next, results[1..], i - 1);
    }
  }

  /** Splitting the results: the loop runs on from where the first part left it. */
  lemma {:induction false} ApplyAllConcat(pr: Progress, a: seq<(LookupKey, Fetch)>, b: seq<(LookupKey, Fetch)>)
    ensures ApplyAll(pr, a + b) == ApplyAll(ApplyAll(pr, a), b)
    decreases |a|
  {
    if pr.Running? && a != [] {
      assert (a + b)[0] == a[0] && (a + b)[1..] == a[1..] + b;
      ApplyAllConcat(Step(pr, a[0].0, a[0].1), a[1..], b);
    } else if a == [] {
      assert a + b == b;
    } else {
      assert ApplyAll(pr, b) == pr;
    }
  }

  // ---------------------------------------------------------------------------
  // `attemptRedirect(out)`

  /** The lookups still open, in the order the page lists them. */
  function UnresolvedOf(p: Params): seq<LookupKey> {
    (if Truthy(p.pid) && !Truthy(p.patient) then [PatientLookup] else [])
    + (if Truthy(p.fid) && !Truthy(p.account) then [AccountLookup] else [])
    + (if Truthy(p.qCanonical) && !Truthy(p.q) && !Truthy(p.id) then [QuestionnaireLookup] else [])
  }

  /** A lookup is open exactly when it was needed and has not been filled in: the
      patient and questionnaire conditions are the conditions under which the
      lookups are planned; the account lookup is planned even when an account is
      given, but only a missing one keeps the page waiting. */
  lemma UnresolvedSpec(p: Params)
    ensures PatientLookup in UnresolvedOf(p) <==> NeedPatient(p)
    ensures AccountLookup in UnresolvedOf(p) <==> NeedAccount(p) && !Truthy(p.account)
    ensures QuestionnaireLookup in UnresolvedOf(p) <==> NeedQ(p)
  {
  }

  const MissingBaseMessage: string := "Questionnaire-ID vorhanden, aber kein base-Parameter. Bitte base setzen."

  /** What `attemptRedirect` does: wait for a choice, report the missing base, or
      redirect with the given query parameters. */
  datatype Decision =
    | Waiting(unresolved: seq<LookupKey>)
    | MissingBase(message: string)
    | Redirect(query: seq<(string, string)>)

  /** The decision and the parameters afterwards (`q` is cleared when a
      questionnaire id and a base are there). */
  function Decide(p: Params): (Decision, Params) {
    var unresolved := UnresolvedOf(p);
    if |unresolved| > 0 then (Waiting(unresolved), p)
    else if Truthy(p.id) && Truthy(p.base) then
      var p' := p.(q := None);
      (Redirect(RedirectParams(p')), p')
    else if !Truthy(p.id) && Truthy(p.q) then (Redirect(RedirectParams(p)), p)
    else if Truthy(p.id) && !Truthy(p.base) then (MissingBase(MissingBaseMessage), p)
    else (Redirect(RedirectParams(p)), p)
  }

  /** The page waits exactly while a lookup is open; it reports the missing base
      exactly when an id is there without a base; otherwise it redirects. Only a
      redirect with an id changes the parameters, by dropping `q`. */
  lemma DecideSpec(p: Params)
    ensures Decide(p).0.Waiting? <==>
      (Truthy(p.pid) && !Truthy(p.patient)) || (Truthy(p.fid) && !Truthy(p.account)) || (Truthy(p.qCanonical) && !Truthy(p.q) && !Truthy(p.id))
    ensures Decide(p).0.MissingBase? <==> !Decide(p).0.Waiting? && Truthy(p.id) && !Truthy(p.base)
    ensures Decide(p).0.Redirect? <==> !Decide(p).0.Waiting? && !(Truthy(p.id) && !Truthy(p.base))
    ensures Decide(p).1 == (if Decide(p).0.Redirect? && Truthy(p.id) then p.(q := None) else p)
    ensures Decide(p).0.Redirect? ==> Decide(p).0.query == RedirectParams(Decide(p).1)
  {
  }

  /** A redirect with an id carries the id and the base and no `q`; one without
      an id carries no id. */
  lemma DecideQuery(p: Params)
    requires Decide(p).0.Redirect?
    ensures Truthy(p.id) ==>
      && ("id", p.id.value) in Decide(p).0.query
      && ("base", p.base.value) in Decide(p).0.query
      && forall v :: ("q", v) !in Decide(p).0.query
    ensures !Truthy(p.id) ==> forall v :: ("id", v) !in Decide(p).0.query
  {
    if Truthy(p.id) {
      RedirectParamsSpec(p.(q := None));
    } else {
      RedirectParamsSpec(p);
    }
  }

  /** The questionnaire choice of several hits: once an id is picked and a base
      is there, the redirect goes by base and id. */
  lemma PickedQuestionnaireRedirects(p: Params, id: string)
    requires id != "" && Truthy(p.base)
    requires !Truthy(p.pid) || Truthy(p.patient)
    requires !Truthy(p.fid) || Truthy(p.account)
    ensures Decide(Pick(p, QuestionnaireLookup, Some(id))).0 == Redirect(RedirectParams(p.(id := Some(id), q := None)))
  {
  }

  // ---------------------------------------------------------------------------
  // The page's copy of the parameters and the operations that update it

  /** `out`, the copy of the parameters that the result loop, the choice
      callbacks and `attemptRedirect` update in place. */
  class Resolver {
    var out: Params

    constructor(params: Params)
      ensures out == params
    {
      out := params;
    }

    /** The loop over the results. */
    method Apply(results: seq<(LookupKey, Fetch)>) returns (pr: Progress)
      modifies this
      ensures pr == ApplyAll(Running(old(out), []), results)
      ensures out == pr.out
    {
      var choices: seq<(LookupKey, seq<Json>)> := [];
      var i := 0;
      while i < |results|
        invariant 0 <= i <= |results|
        invariant ApplyAll(Running(out, choices), results[i..]) == ApplyAll(Running(old(out), []), results)
        decreases |results| - i
      {
        var key, f := results[i].0, results[i].1;
        assert results[i..][0] == results[i] && results[i..][1..] == results[i + 1..];
        ghost var before := Running(out, choices);
        match f {
          case Failed(msg) =>
            return Stopped(ErrorMessage(key, msg), out);
          case Got(bundle) =>
            var items := BundleEntries(bundle);
            if items.None? {
              return Threw(out);
            }
            if |items.value| == 0 {
              return Stopped(NotFoundMessage(key), out);
            }
            if |items.value| == 1 {
              out := Pick(out, key, IdOf(items.value[0]));
            } else {
              choices := choices + [(key, items.value)];
            }
        }
        assert Step(before, key, f) == Running(out, choices);
        i := i + 1;
      }
      return Running(out, choices);
    }

    /** `attemptRedirect(out)`: builds the list of open lookups, then decides. */
    method AttemptRedirect() returns (d: Decision)
      modifies this
      ensures (d, out) == Decide(old(out))
    {
      var unresolved: seq<LookupKey> := [];
      if Truthy(out.pid) && !Truthy(out.patient) {
        unresolved := unresolved + [PatientLookup];
      }
      if Truthy(out.fid) && !Truthy(out.account) {
        unresolved := unresolved + [AccountLookup];
      }
      if Truthy(out.qCanonical) && !Truthy(out.q) && !Truthy(out.id) {
        unresolved := unresolved + [QuestionnaireLookup];
      }
      assert unresolved == UnresolvedOf(out);
      if |unresolved| > 0 {
        return Waiting(unresolved);
      }
      if Truthy(out.id) && Truthy(out.base) {
        out := out.(q := None);
      } else if !Truthy(out.id) && Truthy(out.q) {
      } else if Truthy(out.id) && !Truthy(out.base) {
        return MissingBase(MissingBaseMessage);
      }
      return Redirect(RedirectParams(out));
    }

    /** The selection callback of a choice list: the chosen resource's id fills
      the lookup's field, then the redirect is attempted. */
    method Select(key: LookupKey, chosen: Json) returns (d: Decision)
      modifies this
      ensures (d, out) == Decide(Pick(old(out), key, IdOf(chosen)))
    {
      out := Pick(out, key, IdOf(chosen));
      d := AttemptRedirect();
    }
  }

  // ---------------------------------------------------------------------------
  // `runResolution(params)`

  /** How a resolution run ends. */
  datatype RunOutcome =
    | NoBase
    | SearchStopped(message: string)
    | SearchThrew
    | AwaitingChoice(choices: seq<(LookupKey, seq<Json>)>)
    | Decided(decision: Decision)

  const NoBaseMessage: string := "Bitte FHIR Base angeben."

  /** The fetch results in the order of the tasks (`Promise.all`). */
  function FetchAll(tasks: seq<Search>, fetch: string -> Fetch): (r: seq<(LookupKey, Fetch)>)
    ensures |r| == |tasks|
    ensures forall k :: 0 <= k < |r| ==> r[k] == (tasks[k].key, fetch(tasks[k].url))
  {
    if tasks == [] then [] else [(tasks[0].key, fetch(tasks[0].url))] + FetchAll(tasks[1..], fetch)
  }

  /** The outcome of a run and the parameters it leaves. */
  function Run(params: Params, fetch: string -> Fetch): (RunOutcome, Params) {
    if !Truthy(params.base) then (NoBase, params)
    else
      var pr := ApplyAll(Running(params, []), FetchAll(PlannedSearches(params), fetch));
      match pr
      case Stopped(msg, out) => (SearchStopped(msg), out)
      case Threw(out) => (SearchThrew, out)
      case Running(out, choices) =>
        if choices == [] then (Decided(Decide(out).0), Decide(out).1)
        else (AwaitingChoice(choices), out)
  }

  /** Without a base nothing is searched and nothing changes. */
  lemma RunNoBase(params: Params, fetch: string -> Fetch)
    requires !Truthy(params.base)
    ensures Run(params, fetch) == (NoBase, params)
  {
  }

  /** A run that needs no lookup decides straight away on the given parameters. */
  lemma RunWithoutLookups(params: Params, fetch: string -> Fetch)
    requires Truthy(params.base)
    requires !NeedPatient(params) && !NeedAccount(params) && !NeedQ(params)
    ensures Run(params, fetch) == (Decided(Decide(params).0), Decide(params).1)
  {
    assert PlannedSearches(params) == [];
  }

  /** `runResolution`: plans the searches, fetches them, applies the results to a
      fresh copy of the parameters and, unless a choice is pending, attempts the
      redirect. The copy is returned for the choice callbacks. */
  method RunResolution(params: Params, fetch: string -> Fetch) returns (outcome: RunOutcome, r: Resolver?)
    ensures r == null <==> !Truthy(params.base)
    ensures r != null ==> fresh(r) && (outcome, r.out) == Run(params, fetch)
    ensures r == null ==> outcome == NoBase
  {
    if !Truthy(params.base) {
      return NoBase, null;
    }
    var tasks := PlanSearches(params);
    var results: seq<(LookupKey, Fetch)> := [];
    for k := 0 to |tasks|
      invariant results == FetchAll(tasks[..k], fetch)
    {
      FetchAllSnoc(tasks[..k], tasks[k], fetch);
      assert tasks[..k + 1] == tasks[..k] + [tasks[k]];
      results := results + [(tasks[k].key, fetch(tasks[k].url))];
    }
    assert tasks[..|tasks|] == tasks;
    r := new Resolver(params);
    var pr := r.Apply(results);
    match pr {
      case Stopped(msg, _) => outcome := SearchStopped(msg);
      case Threw(_) => outcome := SearchThrew;
      case Running(_, choices) =>
        if choices == [] {
          var d := r.AttemptRedirect();
          outcome := Decided(d);
        } else {
          outcome := AwaitingChoice(choices);
        }
    }
  }

  lemma FetchAllSnoc(tasks: seq<Search>, t: Search, fetch: string -> Fetch)
    ensures FetchAll(tasks + [t], fetch) == FetchAll(tasks, fetch) + [(t.key, fetch(t.url))]
  {
    var a := FetchAll(tasks + [t], fetch);
    var b := FetchAll(tasks, fetch) + [(t.key, fetch(t.url))];
    assert |a| == |b|;
    forall k | 0 <= k < |a|
      ensures a[k] == b[k]
    {
      if k < |tasks| {
        assert (tasks + [t])[k] == tasks[k];
      }
    }
  }
}
