/** Annotation translation (translator.go, the nginx context-reading translators, and
    `convertAnnotations` with its merge algebra in engine.go). */
module Annotations {
  import opened Text
  import opened Kube

  const NGINX := "nginx.ingress.kubernetes.io/"
  const APPGW := "appgw.ingress.kubernetes.io/"

  /** The kinds of translator the vendor registries are built from. The two that read sibling
      annotations carry the keys they read. */
  datatype Translator =
    | SSLRedirect | RewriteTarget | BackendPathPrefix | AppRoot | ForwardedPrefix
    | Unsupported | ListenerNote | NoOp | CORS(siblings: CorsKeys)
    | CookieAffinity | BackendRequestTimeout | RequestTimeout | SessionCookieName(affinityKey: string)

  datatype CorsKeys = CorsKeys(
    origins: string, methods: string, headers: string, exposed: string, credentials: string, maxAge: string)

  datatype Note = Note(severity: Severity, kind: IssueKind)

  /** What a translator wants changed on the route rule itself. */
  datatype RuleEffect = RuleEffect(sessionPersistence: Option<SessionPersistence>, timeouts: Option<Timeouts>)

  /** A missing map entry reads as the empty string. */
  function Lookup(all: map<string, string>, key: string): string {
    if key in all then all[key] else ""
  }

  /** The preflight cache time; anything but a positive number leaves it unset, which is 0. */
  function MaxAge(value: string): int {
    match Atoi(TrimSpace(value))
    case None => 0
    case Some(n) => if n > 0 then Wrap32(n) else 0
  }

  /** Every origin is allowed when none is listed, and credentials unless switched off. */
  function CorsFilter(keys: CorsKeys, all: map<string, string>): Filter {
    Cors(if Lookup(all, keys.origins) == "" then "*" else all[keys.origins],
         Lookup(all, keys.methods), Lookup(all, keys.headers), Lookup(all, keys.exposed),
         keys.credentials !in all || all[keys.credentials] == "true",
         MaxAge(Lookup(all, keys.maxAge)))
  }

  /** The annotations a translator reads besides its own. */
  function Reads(t: Translator): set<string> {
    match t
    case CORS(s) => {s.origins, s.methods, s.headers, s.exposed, s.credentials, s.maxAge}
    case SessionCookieName(affinityKey) => {affinityKey}
    case _ => {}
  }

  function Translate(t: Translator, value: string, all: map<string, string>): (seq<Filter>, Option<Note>) {
    match t
    case SSLRedirect => (if value == "true" then [RequestRedirect(Some("https"), None, None)] else [], None)
    case RewriteTarget =>
      if value == "" then ([], None)
      else if '$' in value || '(' in value || ')' in value then ([], Some(Note(Warning, NoEquivalent)))
      else ([PrefixReplacement(value)], None)
    case BackendPathPrefix => (if value == "" then [] else [PrefixReplacement(value)], None)
    case AppRoot =>
      if value == "" then ([], None)
      else ([RequestRedirect(None, Some(value), Some(302))], Some(Note(Info, Approximation)))
    case ForwardedPrefix => (if value == "" then [] else [HeaderSet("X-Forwarded-Prefix", value)], None)
    case Unsupported => ([], Some(Note(Warning, NoEquivalent)))
    case ListenerNote => ([], Some(Note(Info, ListenerConcern)))
    case CORS(siblings) => (if value == "true" then [CorsFilter(siblings, all)] else [], None)
    case _ => ([], None)
  }

  /** `ParseSecondsDuration`: a non-negative whole number of seconds. */
  function ParseSeconds(value: string): Option<nat> {
    match Atoi(TrimSpace(value))
    case None => None
    case Some(n) => if n < 0 then None else Some(n)
  }

  datatype Effect = NotAnEffector | Effect(effect: Option<RuleEffect>, note: Option<Note>)

  function EffectOf(t: Translator, value: string, all: map<string, string>): Effect {
    match t
    case CookieAffinity =>
      if value != "true" && value != "cookie" then Effect(None, None)
      else Effect(Some(RuleEffect(Some(CookieSession(None)), None)), None)
    case SessionCookieName(affinityKey) =>
      if value == "" || Lookup(all, affinityKey) != "cookie" then Effect(None, None)
      else Effect(Some(RuleEffect(Some(CookieSession(Some(value))), None)), None)
    case BackendRequestTimeout =>
      (match ParseSeconds(value)
       case None => Effect(None, Some(Note(Warning, BadValue)))
       case Some(n) => Effect(Some(RuleEffect(None, Some(Timeouts(None, Some(n))))), None))
    case RequestTimeout =>
      (match ParseSeconds(value)
       case None => Effect(None, Some(Note(Warning, BadValue)))
       case Some(n) => Effect(Some(RuleEffect(None, Some(Timeouts(Some(n), None)))), None))
    case _ => NotAnEffector
  }

  /*** The merge algebra ***/

  /** `time.ParseDuration` accepts "<n>s" while n seconds fit in int64 nanoseconds. */
  predicate DurationParses(seconds: nat) { seconds * 1_000_000_000 < 0x8000_0000_0000_0000 }

  function LongerDuration(a: Option<nat>, b: Option<nat>): Option<nat> {
    if a.None? then b
    else if b.None? then a
    else if !DurationParses(a.value) then b
    else if !DurationParses(b.value) then a
    else if a.value >= b.value then a
    else b
  }

  function MergeTimeouts(a: Option<Timeouts>, b: Option<Timeouts>): Option<Timeouts> {
    if a.None? then b
    else if b.None? then a
    else Some(Timeouts(LongerDuration(a.value.request, b.value.request),
                       LongerDuration(a.value.backendRequest, b.value.backendRequest)))
  }

  function MergeRuleEffect(a: Option<RuleEffect>, b: Option<RuleEffect>): Option<RuleEffect> {
    if a.None? then b
    else if b.None? then a
    else
      var session := if b.value.sessionPersistence.Some? then b.value.sessionPersistence
                     else a.value.sessionPersistence;
      Some(RuleEffect(session, MergeTimeouts(a.value.timeouts, b.value.timeouts)))
  }

  /*** convertAnnotations ***/

  /** The registered translators and the package-level tables of vendor prefixes and of
      backend-protocol annotations. */
  datatype Engine = Engine(
    translators: map<string, Translator>,
    vendorPrefixes: seq<string>,
    grpcProtocolKeys: seq<string>)
  {
    predicate IsKnownVendorPrefix(annotation: string) {
      exists p | p in vendorPrefixes :: p <= annotation
    }
  }

  datatype Translated = Translated(filters: seq<Filter>, effect: Option<RuleEffect>, issues: seq<Issue>)

  function NoteIssue(ing: Ingress, k: string, note: Option<Note>): seq<Issue> {
    if note.None? then [] else [Issue(ing.key, note.value.severity, note.value.kind, k)]
  }

  function FiltersOf(e: Engine, ing: Ingress, drop: seq<string>, k: string): seq<Filter>
  {
    if k in drop || k !in e.translators then []
    else Translate(e.translators[k], Lookup(ing.annotations, k), ing.annotations).0
  }

  function IssuesOf(e: Engine, ing: Ingress, drop: seq<string>, k: string): seq<Issue>
  {
    if k in drop then []
    else if k !in e.translators then
      if e.IsKnownVendorPrefix(k) then [Issue(ing.key, Warning, NoTranslator, k)] else []
    else
      var t, value := e.translators[k], Lookup(ing.annotations, k);
      var eff := EffectOf(t, value, ing.annotations);
      NoteIssue(ing, k, Translate(t, value, ing.annotations).1)
        + if eff.Effect? then NoteIssue(ing, k, eff.note) else []
  }

  /** The effect one annotation contributes, if it is neither dropped nor filter-only. */
  function Contribution(e: Engine, ing: Ingress, drop: seq<string>, k: string): Option<RuleEffect>
  {
    if k in drop || k !in e.translators then None
    else
      var eff := EffectOf(e.translators[k], Lookup(ing.annotations, k), ing.annotations);
      if eff.Effect? then eff.effect else None
  }

  /** What the loop has accumulated after visiting one more key. */
  function Step(e: Engine, ing: Ingress, drop: seq<string>, k: string, acc: Translated): Translated
  {
    Translated(acc.filters + FiltersOf(e, ing, drop, k),
               MergeRuleEffect(acc.effect, Contribution(e, ing, drop, k)),
               acc.issues + IssuesOf(e, ing, drop, k))
  }

  /** The loop as a fold over a listing of keys. */
  function Fold(e: Engine, ing: Ingress, drop: seq<string>, keys: seq<string>): Translated
  {
    if keys == [] then Translated([], None, [])
    else Step(e, ing, drop, keys[|keys| - 1], Fold(e, ing, drop, keys[..|keys| - 1]))
  }

  ghost function Annotated(e: Engine, ing: Ingress, drop: seq<string>): Translated {
    Fold(e, ing, drop, Sorted(ing.annotations.Keys))
  }

  /** The translators of one key, in the source's order: filters first, then the rule effect. */
  method ConvertOne(e: Engine, ing: Ingress, drop: seq<string>, k: string, acc: Translated) returns (r: Translated)
    ensures r == Step(e, ing, drop, k, acc)
  {
    r := acc;
    if k in drop {
      return;
    }
    if k !in e.translators {
      if e.IsKnownVendorPrefix(k) {
        r := r.(issues := r.issues + [Issue(ing.key, Warning, NoTranslator, k)]);
      }
      return;
    }
    var t := e.translators[k];
    var (f, note) := Translate(t, Lookup(ing.annotations, k), ing.annotations);
    r := r.(filters := r.filters + f, issues := r.issues + NoteIssue(ing, k, note));
    match EffectOf(t, Lookup(ing.annotations, k), ing.annotations)
    case NotAnEffector =>
    case Effect(eff, effNote) =>
      r := Translated(r.filters, MergeRuleEffect(r.effect, eff), r.issues + NoteIssue(ing, k, effNote));
  }

  method ConvertAnnotations(e: Engine, ing: Ingress, drop: seq<string>) returns (r: Translated)
    ensures r == Annotated(e, ing, drop)
  {
    var keys := SortedKeys(ing.annotations.Keys);
    r := ConvertKeys(e, ing, drop, keys);
  }

  method ConvertKeys(e: Engine, ing: Ingress, drop: seq<string>, keys: seq<string>) returns (r: Translated)
    ensures r == Fold(e, ing, drop, keys)
  {
    r := Translated([], None, []);
    for i := 0 to |keys|
      invariant r == Fold(e, ing, drop, keys[..i])
    {
      FoldSnoc(e, ing, drop, keys[..i], keys[i]);
      assert keys[..i + 1] == keys[..i] + [keys[i]];
      r := ConvertOne(e, ing, drop, keys[i], r);
    }
    assert keys[..|keys|] == keys;
  }

  lemma FoldSnoc(e: Engine, ing: Ingress, drop: seq<string>, keys: seq<string>, k: string)
    ensures Fold(e, ing, drop, keys + [k]) == Step(e, ing, drop, k, Fold(e, ing, drop, keys))
  {
    assert (keys + [k])[..|keys|] == keys;
  }

  /*** What the fold computes ***/

  function BackendRequestOf(eff: Option<RuleEffect>): Option<nat> {
    if eff.Some? && eff.value.timeouts.Some? then eff.value.timeouts.value.backendRequest else None
  }

  function RequestOf(eff: Option<RuleEffect>): Option<nat> {
    if eff.Some? && eff.value.timeouts.Some? then eff.value.timeouts.value.request else None
  }

  function SessionOf(eff: Option<RuleEffect>): Option<SessionPersistence> {
    if eff.Some? then eff.value.sessionPersistence else None
  }

  /** A field of the merged effect, seen as a choice among the contributions in key order. */
  ghost predicate IsLongest(r: Option<nat>, contributions: seq<nat>) {
    && (r.None? <==> contributions == [])
    && (contributions != [] ==>
          if exists d :: d in contributions && DurationParses(d) then
            r.value in contributions && DurationParses(r.value)
            && forall d | d in contributions && DurationParses(d) :: d <= r.value
          else r.value == contributions[|contributions| - 1])
  }

  function Contributions(e: Engine, ing: Ingress, drop: seq<string>, keys: seq<string>,
                         field: Option<RuleEffect> -> Option<nat>): seq<nat>
  {
    if keys == [] then []
    else
      var before := Contributions(e, ing, drop, keys[..|keys| - 1], field);
      var last := field(Contribution(e, ing, drop, keys[|keys| - 1]));
      if last.Some? then before + [last.value] else before
  }

  lemma LongerKeepsLongest(r: Option<nat>, cs: seq<nat>, d: nat)
    requires IsLongest(r, cs)
    ensures IsLongest(LongerDuration(r, Some(d)), cs + [d])
  {
    var all := cs + [d];
    assert all[|all| - 1] == d && forall x :: x in all <==> x in cs || x == d;
    if exists x :: x in cs && DurationParses(x) {
      var x :| x in cs && DurationParses(x);
      assert x in all;
    } else if DurationParses(d) {
      assert d in all;
    }
  }

  lemma MergeKeepsLongest(a: Option<RuleEffect>, c: Option<RuleEffect>, requests: seq<nat>, backendRequests: seq<nat>)
    requires IsLongest(RequestOf(a), requests) && IsLongest(BackendRequestOf(a), backendRequests)
    ensures IsLongest(RequestOf(MergeRuleEffect(a, c)),
                      if RequestOf(c).Some? then requests + [RequestOf(c).value] else requests)
    ensures IsLongest(BackendRequestOf(MergeRuleEffect(a, c)),
                      if BackendRequestOf(c).Some? then backendRequests + [BackendRequestOf(c).value]
                      else backendRequests)
  {
    assert RequestOf(MergeRuleEffect(a, c)) == LongerDuration(RequestOf(a), RequestOf(c));
    assert BackendRequestOf(MergeRuleEffect(a, c)) == LongerDuration(BackendRequestOf(a), BackendRequestOf(c));
    if RequestOf(c).Some? { LongerKeepsLongest(RequestOf(a), requests, RequestOf(c).value); }
    if BackendRequestOf(c).Some? {
      LongerKeepsLongest(BackendRequestOf(a), backendRequests, BackendRequestOf(c).value);
    }
  }

  /** Over any annotations and any registry, each timeout ends as the longest parseable
      contribution, or as the last one in key order when none parses. */
  lemma {:induction false} TimeoutsAreLongest(e: Engine, ing: Ingress, drop: seq<string>, keys: seq<string>)
    ensures IsLongest(BackendRequestOf(Fold(e, ing, drop, keys).effect),
                      Contributions(e, ing, drop, keys, BackendRequestOf))
    ensures IsLongest(RequestOf(Fold(e, ing, drop, keys).effect),
                      Contributions(e, ing, drop, keys, RequestOf))
  {
    if keys != [] {
      var init, k := keys[..|keys| - 1], keys[|keys| - 1];
      TimeoutsAreLongest(e, ing, drop, init);
      MergeKeepsLongest(Fold(e, ing, drop, init).effect, Contribution(e, ing, drop, k),
                        Contributions(e, ing, drop, init, RequestOf),
                        Contributions(e, ing, drop, init, BackendRequestOf));
    }
  }

  lemma {:induction false} ContributionMembership(e: Engine, ing: Ingress, drop: seq<string>, keys: seq<string>,
                                                  field: Option<RuleEffect> -> Option<nat>, d: nat)
    ensures d in Contributions(e, ing, drop, keys, field)
            <==> exists k :: k in keys && field(Contribution(e, ing, drop, k)) == Some(d)
  {
    if keys != [] {
      var init, k := keys[..|keys| - 1], keys[|keys| - 1];
      assert keys == init + [k];
      ContributionMembership(e, ing, drop, init, field, d);
    }
  }

  /** The order in which annotations are visited cannot change a timeout that some annotation
      set to a parseable value. */
  lemma TimeoutsIgnoreOrder(e: Engine, ing: Ingress, drop: seq<string>, keys: seq<string>, other: seq<string>,
                            field: Option<RuleEffect> -> Option<nat>)
    requires field == BackendRequestOf || field == RequestOf
    requires Elements(keys) == Elements(other)
    requires exists d :: d in Contributions(e, ing, drop, keys, field) && DurationParses(d)
    ensures field(Fold(e, ing, drop, keys).effect) == field(Fold(e, ing, drop, other).effect)
  {
    assert forall k :: k in keys <==> k in Elements(keys);
    assert forall k :: k in other <==> k in Elements(other);
    forall d
      ensures d in Contributions(e, ing, drop, keys, field) <==> d in Contributions(e, ing, drop, other, field)
    {
      ContributionMembership(e, ing, drop, keys, field, d);
      ContributionMembership(e, ing, drop, other, field, d);
    }
    TimeoutsAreLongest(e, ing, drop, keys);
    TimeoutsAreLongest(e, ing, drop, other);
    LongestUnique(field(Fold(e, ing, drop, keys).effect), Contributions(e, ing, drop, keys, field),
                  field(Fold(e, ing, drop, other).effect), Contributions(e, ing, drop, other, field));
  }

  lemma LongestUnique(r: Option<nat>, cs: seq<nat>, s: Option<nat>, ds: seq<nat>)
    requires IsLongest(r, cs) && IsLongest(s, ds)
    requires forall d :: d in cs <==> d in ds
    requires exists d :: d in cs && DurationParses(d)
    ensures r == s
  {
    var d :| d in cs && DurationParses(d);
    assert d in ds;
  }

  /** Session persistence ends as the last contribution in key order. */
  lemma {:induction false} SessionIsLast(e: Engine, ing: Ingress, drop: seq<string>, keys: seq<string>, at: nat)
    requires at < |keys|
    requires SessionOf(Contribution(e, ing, drop, keys[at])).Some?
    requires forall j | at < j < |keys| :: SessionOf(Contribution(e, ing, drop, keys[j])).None?
    ensures SessionOf(Fold(e, ing, drop, keys).effect) == SessionOf(Contribution(e, ing, drop, keys[at]))
  {
    var init, k := keys[..|keys| - 1], keys[|keys| - 1];
    if at < |init| {
      assert init[at] == keys[at];
      SessionIsLast(e, ing, drop, init, at);
    }
  }

  /** The annotations of the built-in registries that can set session persistence. */
  predicate HasBuiltInSessionKeys(e: Engine) {
    && NGINX + "session-cookie-name" in e.translators
    && e.translators[NGINX + "session-cookie-name"] == SessionCookieName(NGINX + "affinity")
    && forall k | k in e.translators && (e.translators[k].CookieAffinity? || e.translators[k].SessionCookieName?) ::
         k == APPGW + "cookie-based-affinity" || k == NGINX + "affinity" || k == NGINX + "session-cookie-name"
  }

  lemma SessionKeysInOrder()
    ensures Less(APPGW + "cookie-based-affinity", NGINX + "session-cookie-name")
    ensures Less(NGINX + "affinity", NGINX + "session-cookie-name")
  {
    assert Less("affinity", "session-cookie-name");
    LessAfterPrefix(NGINX, "affinity", "session-cookie-name");
  }

  /** Under cookie affinity a set session-cookie-name always names the cookie, whatever other
      affinity annotations the Ingress carries. */
  lemma SessionCookieNameWins(e: Engine, ing: Ingress, drop: seq<string>)
    requires HasBuiltInSessionKeys(e)
    requires Lookup(ing.annotations, NGINX + "affinity") == "cookie"
    requires Lookup(ing.annotations, NGINX + "session-cookie-name") != ""
    requires NGINX + "session-cookie-name" !in drop
    ensures SessionOf(Annotated(e, ing, drop).effect)
            == Some(CookieSession(Some(ing.annotations[NGINX + "session-cookie-name"])))
  {
    SessionKeysInOrder();
    LastSessionKeyWins(e, ing, drop, NGINX + "session-cookie-name");
  }

  lemma LastSessionKeyWins(e: Engine, ing: Ingress, drop: seq<string>, name: string)
    requires name in ing.annotations && SessionOf(Contribution(e, ing, drop, name)).Some?
    requires forall k | k in e.translators
             && (e.translators[k].CookieAffinity? || e.translators[k].SessionCookieName?) ::
         k == name || Less(k, name)
    ensures SessionOf(Annotated(e, ing, drop).effect) == SessionOf(Contribution(e, ing, drop, name))
  {
    var keys := Sorted(ing.annotations.Keys);
    assert forall k :: k in keys <==> k in Elements(keys);
    var at :| 0 <= at < |keys| && keys[at] == name;
    forall j | at < j < |keys|
      ensures SessionOf(Contribution(e, ing, drop, keys[j])).None?
    {
      LessNotBoth(name, keys[j]);
      LessIrreflexive(name);
      if SessionOf(Contribution(e, ing, drop, keys[j])).Some? {
        SessionNeedsAffinity(e, ing, drop, keys[j]);
        assert false;
      }
    }
    SessionIsLast(e, ing, drop, keys, at);
  }

  lemma SessionNeedsAffinity(e: Engine, ing: Ingress, drop: seq<string>, k: string)
    requires SessionOf(Contribution(e, ing, drop, k)).Some?
    ensures k in e.translators && (e.translators[k].CookieAffinity? || e.translators[k].SessionCookieName?)
  {
  }

  /*** Issues and drop lists ***/

  /** No built-in translator raises an error, so annotations never fail a conversion. */
  lemma {:induction false} AnnotationsNeverFail(e: Engine, ing: Ingress, drop: seq<string>, keys: seq<string>)
    ensures forall i | i in Fold(e, ing, drop, keys).issues :: i.severity != Error
  {
    if keys != [] {
      AnnotationsNeverFail(e, ing, drop, keys[..|keys| - 1]);
      NotesAreNoErrors(e, ing, drop, keys[|keys| - 1]);
    }
  }

  lemma NotesAreNoErrors(e: Engine, ing: Ingress, drop: seq<string>, k: string)
    ensures forall i | i in IssuesOf(e, ing, drop, k) :: i.severity != Error
  {
  }

  function CountNoTranslator(issues: seq<Issue>, k: string): nat {
    if issues == [] then 0
    else CountNoTranslator(issues[..|issues| - 1], k)
         + if issues[|issues| - 1].kind == NoTranslator && issues[|issues| - 1].subject == k then 1 else 0
  }

  lemma {:induction false} CountAppend(a: seq<Issue>, b: seq<Issue>, k: string)
    ensures CountNoTranslator(a + b, k) == CountNoTranslator(a, k) + CountNoTranslator(b, k)
  {
    if b == [] {
      assert a + b == a;
    } else {
      assert (a + b)[..|a + b| - 1] == a + b[..|b| - 1];
      CountAppend(a, b[..|b| - 1], k);
    }
  }

  /** Every undropped, unregistered key under a vendor prefix is reported exactly once, and no
      other key ever is. */
  lemma {:induction false} UnregisteredReportedOnce(e: Engine, ing: Ingress, drop: seq<string>, keys: seq<string>,
                                                    k: string)
    requires StrictlySorted(keys)
    ensures CountNoTranslator(Fold(e, ing, drop, keys).issues, k)
         == if k in keys && k !in drop && k !in e.translators && e.IsKnownVendorPrefix(k) then 1 else 0
  {
    if keys != [] {
      var init, last := keys[..|keys| - 1], keys[|keys| - 1];
      assert keys == init + [last];
      LessIrreflexive(last);
      assert last !in init;
      UnregisteredReportedOnce(e, ing, drop, init, k);
      CountAppend(Fold(e, ing, drop, init).issues, IssuesOf(e, ing, drop, last), k);
      CountReported(e, ing, drop, last, k);
    }
  }

  lemma CountReported(e: Engine, ing: Ingress, drop: seq<string>, key: string, k: string)
    ensures CountNoTranslator(IssuesOf(e, ing, drop, key), k)
         == if key == k && k !in drop && k !in e.translators && e.IsKnownVendorPrefix(k) then 1 else 0
  {
    var b := IssuesOf(e, ing, drop, key);
    if key in drop || key in e.translators {
      NotesNameTranslators(e, ing, drop, key);
      CountNone(b, k);
    } else if e.IsKnownVendorPrefix(key) {
      assert b[..0] == [];
    }
  }

  lemma NotesNameTranslators(e: Engine, ing: Ingress, drop: seq<string>, key: string)
    requires (key in drop || key in e.translators)
    ensures forall i | i in IssuesOf(e, ing, drop, key) :: i.kind != NoTranslator
  {
  }

  lemma {:induction false} CountNone(b: seq<Issue>, k: string)
    requires forall i | i in b :: i.kind != NoTranslator
    ensures CountNoTranslator(b, k) == 0
  {
    if b != [] {
      assert b[|b| - 1] in b;
      CountNone(b[..|b| - 1], k);
    }
  }

  function Without(ing: Ingress, drop: seq<string>): Ingress {
    ing.(annotations := map k | k in ing.annotations && k !in drop :: ing.annotations[k])
  }

  function Undropped(keys: seq<string>, drop: seq<string>): seq<string> {
    if keys == [] then []
    else
      var init := Undropped(keys[..|keys| - 1], drop);
      if keys[|keys| - 1] in drop then init else init + [keys[|keys| - 1]]
  }

  lemma {:induction false} UndroppedListing(keys: seq<string>, drop: seq<string>)
    requires StrictlySorted(keys)
    ensures StrictlySorted(Undropped(keys, drop))
    ensures forall k :: k in Undropped(keys, drop) <==> k in keys && k !in drop
  {
    if keys != [] {
      var init, last := keys[..|keys| - 1], keys[|keys| - 1];
      assert keys == init + [last];
      UndroppedListing(init, drop);
      forall i | 0 <= i < |Undropped(init, drop)|
        ensures Less(Undropped(init, drop)[i], last)
      {
        var k := Undropped(init, drop)[i];
        assert k in Undropped(init, drop);
        var j :| 0 <= j < |init| && init[j] == k;
        assert keys[j] == k;
      }
    }
  }

  /** No dropped annotation is read by an undropped one's translator. */
  predicate DropsNoContext(e: Engine, drop: seq<string>) {
    forall k, d | k in e.translators && k !in drop && d in drop :: d !in Reads(e.translators[k])
  }

  lemma ContributesTheSame(e: Engine, ing: Ingress, drop: seq<string>, k: string)
    requires k !in drop && DropsNoContext(e, drop)
    ensures FiltersOf(e, ing, drop, k) == FiltersOf(e, Without(ing, drop), [], k)
    ensures Contribution(e, ing, drop, k) == Contribution(e, Without(ing, drop), [], k)
    ensures IssuesOf(e, ing, drop, k) == IssuesOf(e, Without(ing, drop), [], k)
  {
    if k in e.translators {
      var t := e.translators[k];
      var all, kept := ing.annotations, Without(ing, drop).annotations;
      assert forall x | x in Reads(t) :: Lookup(all, x) == Lookup(kept, x) && (x in all <==> x in kept);
    }
  }

  lemma {:induction false} FoldOfUndropped(e: Engine, ing: Ingress, drop: seq<string>, keys: seq<string>)
    requires DropsNoContext(e, drop)
    ensures Fold(e, ing, drop, keys) == Fold(e, Without(ing, drop), [], Undropped(keys, drop))
  {
    if keys != [] {
      var init, k := keys[..|keys| - 1], keys[|keys| - 1];
      FoldOfUndropped(e, ing, drop, init);
      if k in drop {
        DroppedStep(e, ing, drop, k, Fold(e, ing, drop, init));
      } else {
        KeptStep(e, ing, drop, k, Fold(e, ing, drop, init));
        FoldSnoc(e, Without(ing, drop), [], Undropped(init, drop), k);
      }
    }
  }

  lemma DroppedStep(e: Engine, ing: Ingress, drop: seq<string>, k: string, acc: Translated)
    requires k in drop
    ensures Step(e, ing, drop, k, acc) == acc
  {
  }

  lemma KeptStep(e: Engine, ing: Ingress, drop: seq<string>, k: string, acc: Translated)
    requires k !in drop && DropsNoContext(e, drop)
    ensures Step(e, ing, drop, k, acc) == Step(e, Without(ing, drop), [], k, acc)
  {
    ContributesTheSame(e, ing, drop, k);
  }

  lemma DropIsDeletion(e: Engine, ing: Ingress, drop: seq<string>)
    requires DropsNoContext(e, drop)
    ensures Annotated(e, ing, drop) == Annotated(e, Without(ing, drop), [])
  {
    var keys := Sorted(ing.annotations.Keys);
    assert forall k :: k in keys <==> k in Elements(keys);
    FoldOfUndropped(e, ing, drop, keys);
    UndroppedListing(keys, drop);
    var rest := Sorted(Without(ing, drop).annotations.Keys);
    assert forall k :: k in rest <==> k in Elements(rest);
    SortedListingUnique(Undropped(keys, drop), rest);
  }

  ghost predicate DroppingIsDeleting(e: Engine, drop: seq<string>) {
    forall ing :: Annotated(e, ing, drop) == Annotated(e, Without(ing, drop), [])
  }

  lemma {:induction false} LoneKey(e: Engine, ing: Ingress, drop: seq<string>, keys: seq<string>, k: string)
    requires StrictlySorted(keys) && forall x | x in keys :: x == k || x in drop
    requires k !in drop
    ensures Fold(e, ing, drop, keys)
            == if k in keys then Step(e, ing, drop, k, Translated([], None, [])) else Translated([], None, [])
  {
    if keys != [] {
      var init, last := keys[..|keys| - 1], keys[|keys| - 1];
      assert keys == init + [last];
      LessIrreflexive(last);
      assert last !in init;
      LoneKey(e, ing, drop, init, k);
    }
  }

  /** An Ingress whose `k` sees the dropped annotation `d` it reads. */
  predicate Revealing(t: Translator, all: map<string, string>, k: string, d: string) {
    && all.Keys == {k, d}
    && all[k] == (if t.CORS? then "true" else "name") && all[d] == (if t.CORS? then "5" else "cookie")
  }

  lemma ReadsDropped(e: Engine, ing: Ingress, drop: seq<string>, k: string, d: string)
    requires k in e.translators && k !in drop && d in drop && d in Reads(e.translators[k])
    requires Revealing(e.translators[k], ing.annotations, k, d)
    ensures var a, b := Annotated(e, ing, drop), Annotated(e, Without(ing, drop), []);
            a.filters != b.filters || SessionOf(a.effect) != SessionOf(b.effect)
  {
    var rest := Without(ing, drop);
    LoneAnnotation(e, ing, drop, k);
    LoneAnnotation(e, rest, [], k);
    SeesTheDifference(e.translators[k], ing.annotations, rest.annotations, k, d);
    StepsDiffer(e, ing, rest, drop, k);
  }

  lemma LoneAnnotation(e: Engine, ing: Ingress, drop: seq<string>, k: string)
    requires k in ing.annotations && k !in drop && forall x | x in ing.annotations :: x == k || x in drop
    ensures Annotated(e, ing, drop) == Step(e, ing, drop, k, Translated([], None, []))
  {
    var keys := Sorted(ing.annotations.Keys);
    assert forall x :: x in keys <==> x in Elements(keys);
    LoneKey(e, ing, drop, keys, k);
  }

  lemma StepsDiffer(e: Engine, ing: Ingress, rest: Ingress, drop: seq<string>, k: string)
    requires k in e.translators && k !in drop && k in ing.annotations && k in rest.annotations
    requires SeesOther(e.translators[k], ing.annotations, rest.annotations, k)
    ensures var a, b := Step(e, ing, drop, k, Translated([], None, [])), Step(e, rest, [], k, Translated([], None, []));
            a.filters != b.filters || SessionOf(a.effect) != SessionOf(b.effect)
  {
    assert [] + FiltersOf(e, ing, drop, k) == FiltersOf(e, ing, drop, k);
    assert [] + FiltersOf(e, rest, [], k) == FiltersOf(e, rest, [], k);
  }

  /** The translator of `k` decides differently on the two sets of annotations. */
  predicate SeesOther(t: Translator, all: map<string, string>, rest: map<string, string>, k: string)
    requires k in all && k in rest
  {
    || Translate(t, all[k], all).0 != Translate(t, rest[k], rest).0
    || (EffectOf(t, all[k], all).Effect? && EffectOf(t, rest[k], rest).Effect?
        && SessionOf(EffectOf(t, all[k], all).effect) != SessionOf(EffectOf(t, rest[k], rest).effect))
  }

  lemma SeesTheDifference(t: Translator, both: map<string, string>, rest: map<string, string>, k: string, d: string)
    requires d in Reads(t) && d != k && Revealing(t, both, k, d)
    requires d !in rest && k in rest && rest[k] == both[k]
    ensures SeesOther(t, both, rest, k)
  {
  }

  lemma RevealingIngress(t: Translator, k: string, d: string, rules: seq<IngressRule>) returns (ing: Ingress)
    requires k != d
    ensures Revealing(t, ing.annotations, k, d) && ing.rules == rules
  {
    var value, context := if t.CORS? then "true" else "name", if t.CORS? then "5" else "cookie";
    ing := Ingress(ObjectKey(k, d), map[k := value, d := context], rules, false, 0);
  }

  /** For the annotation loop, dropping is deleting on every Ingress exactly when no dropped annotation
      is one that another translator reads. */
  lemma DropIsDeletionExactlyWhen(e: Engine, drop: seq<string>)
    ensures DroppingIsDeleting(e, drop) <==> DropsNoContext(e, drop)
  {
    if DropsNoContext(e, drop) {
      forall ing ensures Annotated(e, ing, drop) == Annotated(e, Without(ing, drop), []) {
        DropIsDeletion(e, ing, drop);
      }
    } else {
      var k, d :| k in e.translators && k !in drop && d in drop && d in Reads(e.translators[k]);
      var ing := RevealingIngress(e.translators[k], k, d, []);
      ReadsDropped(e, ing, drop, k, d);
    }
  }

  lemma {:induction false} NoSessionContribution(e: Engine, ing: Ingress, drop: seq<string>, keys: seq<string>)
    requires forall k | k in keys :: SessionOf(Contribution(e, ing, drop, k)).None?
    ensures SessionOf(Fold(e, ing, drop, keys).effect).None?
  {
    if keys != [] {
      NoSessionContribution(e, ing, drop, keys[..|keys| - 1]);
    }
  }

  /** The built-in case of it: with `affinity` dropped, session-cookie-name
      still sees it as context and still turns cookie sessions on; deleting it would not. */
  lemma DroppedAffinityStillApplies(e: Engine, ing: Ingress, drop: seq<string>)
    requires HasBuiltInSessionKeys(e)
    requires Lookup(ing.annotations, NGINX + "affinity") == "cookie"
    requires Lookup(ing.annotations, NGINX + "session-cookie-name") != ""
    requires NGINX + "affinity" in drop && NGINX + "session-cookie-name" !in drop
    requires APPGW + "cookie-based-affinity" !in ing.annotations
    ensures SessionOf(Annotated(e, ing, drop).effect)
            == Some(CookieSession(Some(ing.annotations[NGINX + "session-cookie-name"])))
    ensures SessionOf(Annotated(e, Without(ing, drop), []).effect) == None
  {
    SessionCookieNameWins(e, ing, drop);
    NoAffinityNoSession(e, Without(ing, drop), APPGW + "cookie-based-affinity", NGINX + "affinity",
                        NGINX + "session-cookie-name");
  }

  lemma NoAffinityNoSession(e: Engine, ing: Ingress, appgw: string, affinity: string, cookieName: string)
    requires forall k | k in e.translators
             && (e.translators[k].CookieAffinity? || e.translators[k].SessionCookieName?) ::
         k == appgw || k == affinity || k == cookieName
    requires cookieName in e.translators && e.translators[cookieName] == SessionCookieName(affinity)
    requires appgw !in ing.annotations && affinity !in ing.annotations
    ensures SessionOf(Annotated(e, ing, []).effect) == None
  {
    var keys := Sorted(ing.annotations.Keys);
    assert forall k :: k in keys <==> k in Elements(keys);
    forall k | k in keys
      ensures SessionOf(Contribution(e, ing, [], k)).None?
    {
      if SessionOf(Contribution(e, ing, [], k)).Some? {
        SessionNeedsAffinity(e, ing, [], k);
      }
    }
    NoSessionContribution(e, ing, [], keys);
  }

  /*** The same over the registry and the annotation values alone ***/

  /** An annotation that reaches its translator. */
  predicate Active(e: Engine, ing: Ingress, drop: seq<string>, k: string) {
    k in ing.annotations && k !in drop && k in e.translators
  }

  /** The numbers of seconds that undropped annotations of one kind are set to, within int64. */
  ghost function Seconds(e: Engine, ing: Ingress, drop: seq<string>, t: Translator): iset<nat> {
    iset n: nat | SomeAsks(e, ing, drop, t, n)
  }

  ghost predicate SomeAsks(e: Engine, ing: Ingress, drop: seq<string>, t: Translator, n: nat) {
    exists k :: Asks(e, ing, drop, k, t, n)
  }

  ghost predicate Asks(e: Engine, ing: Ingress, drop: seq<string>, k: string, t: Translator, n: nat) {
    Active(e, ing, drop, k) && e.translators[k] == t && SetTo(ing.annotations[k], n)
  }

  ghost predicate SetTo(value: string, seconds: nat) {
    TrimmedReadsAs(value, seconds) && seconds < 0x8000_0000_0000_0000
  }

  lemma SecondsParse(value: string, n: nat)
    ensures ParseSeconds(value) == Some(n) <==> SetTo(value, n)
  {
    TrimmedAtoiExactlyWhen(value, n);
  }

  /** About 292 years: what fits int64 nanoseconds. */
  lemma DurationParsesExactlyWhen(seconds: nat)
    ensures DurationParses(seconds) <==> seconds <= 9_223_372_036
  {
  }

  /** The longest of the values that parses, or one that does not if none does. */
  ghost predicate IsFinal(t: Option<nat>, values: iset<nat>) {
    && (t.None? <==> forall d :: d !in values)
    && (t.Some? ==> t.value in values)
    && (t.Some? && !DurationParses(t.value) ==> forall d | d in values :: !DurationParses(d))
    && forall d | d in values && DurationParses(d) :: t.Some? && d <= t.value
  }

  lemma LongestIsFinal(r: Option<nat>, cs: seq<nat>, values: iset<nat>)
    requires IsLongest(r, cs) && forall d: nat :: d in cs <==> d in values
    ensures IsFinal(r, values)
  {
    assert cs != [] ==> cs[0] in cs && cs[|cs| - 1] in cs;
  }

  lemma ContributesSeconds(e: Engine, ing: Ingress, drop: seq<string>, k: string, n: nat)
    requires k in ing.annotations
    ensures BackendRequestOf(Contribution(e, ing, drop, k)) == Some(n)
            <==> Asks(e, ing, drop, k, BackendRequestTimeout, n)
    ensures RequestOf(Contribution(e, ing, drop, k)) == Some(n) <==> Asks(e, ing, drop, k, RequestTimeout, n)
  {
    SecondsParse(ing.annotations[k], n);
  }

  /** Some annotation gives this value. */
  ghost predicate Gives(ing: Ingress, value: string -> Option<nat>, d: nat) {
    exists k :: k in ing.annotations && value(k) == Some(d)
  }

  lemma FinalIsLongest(e: Engine, ing: Ingress, drop: seq<string>, field: Option<RuleEffect> -> Option<nat>,
                       values: iset<nat>)
    requires field == RequestOf || field == BackendRequestOf
    requires forall d: nat :: d in values <==> Gives(ing, k => field(Contribution(e, ing, drop, k)), d)
    ensures IsFinal(field(Annotated(e, ing, drop).effect), values)
  {
    var keys := Sorted(ing.annotations.Keys);
    var cs := Contributions(e, ing, drop, keys, field);
    assert forall k :: k in keys <==> k in Elements(keys);
    forall d: nat
      ensures d in cs <==> d in values
    {
      ContributionMembership(e, ing, drop, keys, field, d);
    }
    TimeoutsAreLongest(e, ing, drop, keys);
    LongestIsFinal(field(Annotated(e, ing, drop).effect), cs, values);
  }

  /** The backend timeout ends as the longest parseable number of seconds among the undropped annotations
      registered for it, and so does the request timeout. */
  lemma TimeoutsFromValues(e: Engine, ing: Ingress, drop: seq<string>)
    ensures IsFinal(BackendRequestOf(Annotated(e, ing, drop).effect), Seconds(e, ing, drop, BackendRequestTimeout))
    ensures IsFinal(RequestOf(Annotated(e, ing, drop).effect), Seconds(e, ing, drop, RequestTimeout))
  {
    forall d: nat
      ensures Gives(ing, k => BackendRequestOf(Contribution(e, ing, drop, k)), d)
              <==> SomeAsks(e, ing, drop, BackendRequestTimeout, d)
      ensures Gives(ing, k => RequestOf(Contribution(e, ing, drop, k)), d)
              <==> SomeAsks(e, ing, drop, RequestTimeout, d)
    {
      forall k | k in ing.annotations {
        ContributesSeconds(e, ing, drop, k, d);
      }
    }
    FinalIsLongest(e, ing, drop, BackendRequestOf, Seconds(e, ing, drop, BackendRequestTimeout));
    FinalIsLongest(e, ing, drop, RequestOf, Seconds(e, ing, drop, RequestTimeout));
  }

  /** The annotation turns cookie sessions on, in this way. */
  predicate GivesSession(e: Engine, ing: Ingress, drop: seq<string>, k: string, s: SessionPersistence) {
    && Active(e, ing, drop, k)
    && var value := ing.annotations[k];
       match e.translators[k]
       case CookieAffinity => (value == "true" || value == "cookie") && s == CookieSession(None)
       case SessionCookieName(affinity) =>
         value != "" && affinity in ing.annotations && ing.annotations[affinity] == "cookie"
             && s == CookieSession(Some(value))
       case _ => false
  }

  lemma ContributesSession(e: Engine, ing: Ingress, drop: seq<string>, k: string, s: SessionPersistence)
    requires k in ing.annotations
    ensures SessionOf(Contribution(e, ing, drop, k)) == Some(s) <==> GivesSession(e, ing, drop, k, s)
  {
  }

  /** Nothing after this key gives a session. */
  ghost predicate GivesLast(e: Engine, ing: Ingress, drop: seq<string>, k: string, s: SessionPersistence) {
    GivesSession(e, ing, drop, k, s) && forall j, r | Less(k, j) :: !GivesSession(e, ing, drop, j, r)
  }

  lemma LastGives(e: Engine, ing: Ingress, drop: seq<string>, k: string, s: SessionPersistence)
    requires GivesLast(e, ing, drop, k, s)
    ensures SessionOf(Annotated(e, ing, drop).effect) == Some(s)
  {
    var keys := Sorted(ing.annotations.Keys);
    assert forall j :: j in keys <==> j in Elements(keys);
    var at :| 0 <= at < |keys| && keys[at] == k;
    ContributesSession(e, ing, drop, k, s);
    forall j | at < j < |keys|
      ensures SessionOf(Contribution(e, ing, drop, keys[j])).None?
    {
      if SessionOf(Contribution(e, ing, drop, keys[j])).Some? {
        ContributesSession(e, ing, drop, keys[j], SessionOf(Contribution(e, ing, drop, keys[j])).value);
      }
    }
    SessionIsLast(e, ing, drop, keys, at);
  }

  lemma SomeGivesLast(e: Engine, ing: Ingress, drop: seq<string>) returns (k: string, s: SessionPersistence)
    requires SessionOf(Annotated(e, ing, drop).effect).Some?
    ensures GivesLast(e, ing, drop, k, s)
  {
    var keys := Sorted(ing.annotations.Keys);
    assert forall j :: j in keys <==> j in Elements(keys);
    if forall i | 0 <= i < |keys| :: SessionOf(Contribution(e, ing, drop, keys[i])).None? {
      NoSessionContribution(e, ing, drop, keys);
    }
    var at := LastGiving(e, ing, drop, keys);
    k, s := keys[at], SessionOf(Contribution(e, ing, drop, keys[at])).value;
    ContributesSession(e, ing, drop, k, s);
    LastIsGreatest(e, ing, drop, keys, at);
  }

  /** Session persistence is what the last such annotation in key order gives. */
  lemma SessionFromValues(e: Engine, ing: Ingress, drop: seq<string>, s: SessionPersistence)
    ensures SessionOf(Annotated(e, ing, drop).effect) == Some(s) <==> exists k :: GivesLast(e, ing, drop, k, s)
  {
    if SessionOf(Annotated(e, ing, drop).effect) == Some(s) {
      var k, r := SomeGivesLast(e, ing, drop);
      LastGives(e, ing, drop, k, r);
    }
    if k :| GivesLast(e, ing, drop, k, s) { LastGives(e, ing, drop, k, s); }
  }

  lemma {:induction false} LastGiving(e: Engine, ing: Ingress, drop: seq<string>, keys: seq<string>) returns (at: nat)
    requires exists i :: 0 <= i < |keys| && SessionOf(Contribution(e, ing, drop, keys[i])).Some?
    ensures at < |keys| && SessionOf(Contribution(e, ing, drop, keys[at])).Some?
    ensures forall j | at < j < |keys| :: SessionOf(Contribution(e, ing, drop, keys[j])).None?
  {
    var last := |keys| - 1;
    if SessionOf(Contribution(e, ing, drop, keys[last])).Some? {
      at := last;
    } else {
      at := LastGiving(e, ing, drop, keys[..last]);
    }
  }

  lemma LastIsGreatest(e: Engine, ing: Ingress, drop: seq<string>, keys: seq<string>, at: nat)
    requires StrictlySorted(keys) && at < |keys| && forall k :: k in keys <==> k in ing.annotations
    requires forall j | at < j < |keys| :: SessionOf(Contribution(e, ing, drop, keys[j])).None?
    ensures forall j, r | Less(keys[at], j) :: !GivesSession(e, ing, drop, j, r)
    ensures forall k, r | GivesSession(e, ing, drop, k, r) :: k == keys[at] || Less(k, keys[at])
  {
    forall k, r | GivesSession(e, ing, drop, k, r)
      ensures (k == keys[at] || Less(k, keys[at])) && !Less(keys[at], k)
    {
      ContributesSession(e, ing, drop, k, r);
      var i :| 0 <= i < |keys| && keys[i] == k;
      LessIrreflexive(k);
      if i < at { LessNotBoth(k, keys[at]); }
    }
  }

  predicate NoCapture(value: string) { forall c | c in value :: c != '$' && c != '(' && c != ')' }

  function TextOf(all: map<string, string>, k: string, default_: string): string {
    if k in all && all[k] != "" then all[k] else default_
  }

  /** The cache time in force: a positive number of seconds, as int32; otherwise none. */
  ghost predicate CachesFor(all: map<string, string>, k: string, maxAge: int) {
    if exists n: nat :: n > 0 && k in all && SetTo(all[k], n) then
      exists n: nat :: n > 0 && SetTo(all[k], n) && maxAge == Wrap32(n)
    else maxAge == 0
  }

  /** The filter a translator makes of a value. */
  ghost predicate Yields(t: Translator, value: string, all: map<string, string>, f: Filter) {
    match t
    case SSLRedirect => value == "true" && f == RequestRedirect(Some("https"), None, None)
    case RewriteTarget => value != "" && NoCapture(value) && f == PrefixReplacement(value)
    case BackendPathPrefix => value != "" && f == PrefixReplacement(value)
    case AppRoot => value != "" && f == RequestRedirect(None, Some(value), Some(302))
    case ForwardedPrefix => value != "" && f == HeaderSet("X-Forwarded-Prefix", value)
    case CORS(s) =>
      && value == "true" && f.Cors? && f.origins == TextOf(all, s.origins, "*")
      && f.methods == TextOf(all, s.methods, "") && f.headers == TextOf(all, s.headers, "")
      && f.exposed == TextOf(all, s.exposed, "") && CachesFor(all, s.maxAge, f.maxAge)
      && (f.credentials <==> (s.credentials in all ==> all[s.credentials] == "true"))
    case _ => false
  }

  lemma MaxAgeParses(all: map<string, string>, k: string, maxAge: int)
    ensures MaxAge(Lookup(all, k)) == maxAge <==> CachesFor(all, k, maxAge)
  {
    var value := Lookup(all, k);
    forall n: nat
      ensures Atoi(TrimSpace(value)) == Some(n) <==> SetTo(value, n)
    {
      TrimmedAtoiExactlyWhen(value, n);
    }
    assert TrimSpace("") == "" && Atoi("") == None;
  }

  lemma YieldsExactly(t: Translator, value: string, all: map<string, string>, f: Filter)
    ensures f in Translate(t, value, all).0 <==> Yields(t, value, all, f)
  {
    if t.CORS? && f.Cors? { MaxAgeParses(all, t.siblings.maxAge, f.maxAge); }
  }

  /** The filters are exactly what the undropped registered annotations yield. */
  lemma FiltersFromValues(e: Engine, ing: Ingress, drop: seq<string>, f: Filter)
    ensures f in Annotated(e, ing, drop).filters
            <==> exists k :: Active(e, ing, drop, k) && Yields(e.translators[k], ing.annotations[k], ing.annotations, f)
  {
    var keys := Sorted(ing.annotations.Keys);
    assert forall k :: k in keys <==> k in Elements(keys);
    FiltersGather(e, ing, drop, keys, f);
    forall k | Active(e, ing, drop, k)
      ensures f in FiltersOf(e, ing, drop, k) <==> Yields(e.translators[k], ing.annotations[k], ing.annotations, f)
    {
      YieldsExactly(e.translators[k], ing.annotations[k], ing.annotations, f);
    }
    assert forall k | k in ing.annotations && !Active(e, ing, drop, k) :: FiltersOf(e, ing, drop, k) == [];
  }

  lemma {:induction false} FiltersGather(e: Engine, ing: Ingress, drop: seq<string>, keys: seq<string>, f: Filter)
    ensures f in Fold(e, ing, drop, keys).filters <==> exists k :: k in keys && f in FiltersOf(e, ing, drop, k)
  {
    if keys != [] {
      assert keys == keys[..|keys| - 1] + [keys[|keys| - 1]];
      FiltersGather(e, ing, drop, keys[..|keys| - 1], f);
    }
  }

  /** And they come in the order of the annotations. */
  lemma FiltersInKeyOrder(e: Engine, ing: Ingress, drop: seq<string>, i: nat, j: nat) returns (k: string, l: string)
    requires i < j < |Annotated(e, ing, drop).filters|
    ensures Less(k, l) && Active(e, ing, drop, k) && Active(e, ing, drop, l)
    ensures Yields(e.translators[k], ing.annotations[k], ing.annotations, Annotated(e, ing, drop).filters[i])
    ensures Yields(e.translators[l], ing.annotations[l], ing.annotations, Annotated(e, ing, drop).filters[j])
  {
    var keys, filters := Sorted(ing.annotations.Keys), Annotated(e, ing, drop).filters;
    assert forall x :: x in keys <==> x in Elements(keys);
    k, l := GatheredInOrder(e, ing, drop, keys, i, j);
    YieldsExactly(e.translators[k], ing.annotations[k], ing.annotations, filters[i]);
    YieldsExactly(e.translators[l], ing.annotations[l], ing.annotations, filters[j]);
  }

  lemma {:induction false} GatheredInOrder(e: Engine, ing: Ingress, drop: seq<string>, keys: seq<string>, i: nat,
                                           j: nat)
    returns (k: string, l: string)
    requires StrictlySorted(keys) && i < j < |Fold(e, ing, drop, keys).filters|
    ensures k in keys && l in keys && Less(k, l)
    ensures Fold(e, ing, drop, keys).filters[i] in FiltersOf(e, ing, drop, k)
    ensures Fold(e, ing, drop, keys).filters[j] in FiltersOf(e, ing, drop, l)
  {
    var init, last := keys[..|keys| - 1], keys[|keys| - 1];
    assert keys == init + [last];
    var before, one := Fold(e, ing, drop, init).filters, FiltersOf(e, ing, drop, last);
    if j < |before| {
      k, l := GatheredInOrder(e, ing, drop, init, i, j);
    } else {
      AtMostOne(e, ing, drop, last);
      assert before[i] in before;
      FiltersGather(e, ing, drop, init, before[i]);
      k :| k in init && before[i] in FiltersOf(e, ing, drop, k);
      l := last;
      var at :| 0 <= at < |init| && init[at] == k;
      assert keys[at] == k;
    }
  }

  lemma AtMostOne(e: Engine, ing: Ingress, drop: seq<string>, k: string)
    ensures |FiltersOf(e, ing, drop, k)| <= 1
  {
  }

  /** What a translator reports about a value. */
  ghost predicate Notes(t: Translator, value: string, severity: Severity, kind: IssueKind) {
    match t
    case RewriteTarget => value != "" && !NoCapture(value) && severity == Warning && kind == NoEquivalent
    case AppRoot => value != "" && severity == Info && kind == Approximation
    case Unsupported => severity == Warning && kind == NoEquivalent
    case ListenerNote => severity == Info && kind == ListenerConcern
    case BackendRequestTimeout => (forall n: nat :: !SetTo(value, n)) && severity == Warning && kind == BadValue
    case RequestTimeout => (forall n: nat :: !SetTo(value, n)) && severity == Warning && kind == BadValue
    case _ => false
  }

  /** The report about one annotation: its translator's, or that it has none, under a vendor's prefix. */
  ghost predicate Reports(e: Engine, ing: Ingress, drop: seq<string>, k: string, i: Issue) {
    && k in ing.annotations && k !in drop && i.ingress == ing.key && i.subject == k
    && if k in e.translators then Notes(e.translators[k], ing.annotations[k], i.severity, i.kind)
       else i.severity == Warning && i.kind == NoTranslator
            && exists p :: p in e.vendorPrefixes && |p| <= |k| && k[..|p|] == p
  }

  lemma ReportsExactly(e: Engine, ing: Ingress, drop: seq<string>, k: string, i: Issue)
    requires k in ing.annotations
    ensures i in IssuesOf(e, ing, drop, k) <==> Reports(e, ing, drop, k, i)
  {
    forall n: nat
      ensures ParseSeconds(ing.annotations[k]) == Some(n) <==> SetTo(ing.annotations[k], n)
    {
      SecondsParse(ing.annotations[k], n);
    }
  }

  /** The issues are exactly these reports. */
  lemma IssuesFromValues(e: Engine, ing: Ingress, drop: seq<string>, i: Issue)
    ensures i in Annotated(e, ing, drop).issues <==> exists k :: Reports(e, ing, drop, k, i)
  {
    var keys := Sorted(ing.annotations.Keys);
    assert forall k :: k in keys <==> k in Elements(keys);
    IssuesGather(e, ing, drop, keys, i);
    forall k | k in ing.annotations
      ensures i in IssuesOf(e, ing, drop, k) <==> Reports(e, ing, drop, k, i)
    {
      ReportsExactly(e, ing, drop, k, i);
    }
  }

  lemma {:induction false} IssuesGather(e: Engine, ing: Ingress, drop: seq<string>, keys: seq<string>, i: Issue)
    ensures i in Fold(e, ing, drop, keys).issues <==> exists k :: k in keys && i in IssuesOf(e, ing, drop, k)
  {
    if keys != [] {
      assert keys == keys[..|keys| - 1] + [keys[|keys| - 1]];
      IssuesGather(e, ing, drop, keys[..|keys| - 1], i);
    }
  }
}
