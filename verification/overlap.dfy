/** Overlap detection (overlap.go). */
module Overlap {
  import opened Text
  import opened Kube
  import opened Grouping
  import opened Conversion

  /** What the source renders as "service:port". */
  datatype BackendSignature = Numbered(service: string, number: int) | Named(service: string, port: string) | Resource

  function SignatureOf(b: Backend): BackendSignature {
    match b
    case ResourceBackend => Resource
    case ServiceBackend(name, port) =>
      if port.number != 0 then Numbered(name, port.number) else Named(name, port.name)
  }

  datatype Match = Match(host: string, pathType: PathType, path: string)
  datatype Entry = Entry(ingress: ObjectKey, backend: BackendSignature)

  function MatchText(m: Match): string { m.host + "|" + (m.pathType.Rendered() + "|" + m.path) }

  /** Hosts are DNS names and path types plain words: neither contains a bar. */
  predicate NoBars(m: Match) {
    '|' !in m.host && '|' !in m.pathType.Rendered()
    && (m.pathType.OtherPathType? ==> m.pathType.text !in ["Exact", "Prefix", "ImplementationSpecific"])
  }

  lemma MatchTextIdentifies(a: Match, b: Match)
    requires NoBars(a) && NoBars(b)
    ensures MatchText(a) == MatchText(b) <==> a == b
  {
    if MatchText(a) == MatchText(b) {
      SeparatorInjective('|', a.host, a.pathType.Rendered() + "|" + a.path, b.host,
                         b.pathType.Rendered() + "|" + b.path);
      SeparatorInjective('|', a.pathType.Rendered(), a.path, b.pathType.Rendered(), b.path);
    }
  }

  function MatchIn(r: IngressRule, p: IngressPath): Match {
    Match(r.host, EffectiveType(p), p.path)
  }

  /** The (match, entry) pairs the selected, unpaired Ingresses contribute, in order. */
  function RuleEntries(ing: Ingress, r: IngressRule, paths: seq<IngressPath>): seq<(Match, Entry)> {
    if paths == [] then []
    else
      var p := paths[|paths| - 1];
      RuleEntries(ing, r, paths[..|paths| - 1]) + [(MatchIn(r, p), Entry(ing.key, SignatureOf(p.backend)))]
  }

  function IngressEntries(ing: Ingress, rules: seq<IngressRule>): seq<(Match, Entry)> {
    if rules == [] then []
    else
      var r := rules[|rules| - 1];
      IngressEntries(ing, rules[..|rules| - 1]) + RuleEntries(ing, r, r.Paths())
  }

  function AllEntries(ings: seq<Ingress>, canaries: set<ObjectKey>): seq<(Match, Entry)> {
    if ings == [] then []
    else
      var before, last := AllEntries(ings[..|ings| - 1], canaries), ings[|ings| - 1];
      if last.key in canaries then before else before + IngressEntries(last, last.rules)
  }

  function Keyed(entries: seq<(Match, Entry)>): seq<(string, Entry)> {
    seq(|entries|, i requires 0 <= i < |entries| => (MatchText(entries[i].0), entries[i].1))
  }

  /** Two entries for the same match disagree about the backend. */
  ghost predicate Ambiguous(entries: seq<(Match, Entry)>, m: Match) {
    exists i, j :: 0 <= i < |entries| && 0 <= j < |entries|
      && entries[i].0 == m && entries[j].0 == m && entries[i].1.backend != entries[j].1.backend
  }

  ghost predicate AmbiguousText(entries: seq<(string, Entry)>, sig: string) {
    exists i, j :: 0 <= i < |entries| && 0 <= j < |entries|
      && entries[i].0 == sig && entries[j].0 == sig && entries[i].1.backend != entries[j].1.backend
  }

  lemma TextAmbiguityIsAmbiguity(entries: seq<(Match, Entry)>, m: Match)
    requires NoBars(m) && forall x | x in entries :: NoBars(x.0)
    ensures AmbiguousText(Keyed(entries), MatchText(m)) <==> Ambiguous(entries, m)
  {
    forall i | 0 <= i < |entries|
      ensures Keyed(entries)[i].0 == MatchText(m) <==> entries[i].0 == m
    {
      assert entries[i] in entries;
      MatchTextIdentifies(entries[i].0, m);
    }
  }

  lemma AmbiguousGroup(entries: seq<(string, Entry)>, sig: string)
    ensures AmbiguousText(entries, sig)
            <==> exists a, b :: a in Select(entries, sig) && b in Select(entries, sig) && a.backend != b.backend
  {
    if AmbiguousText(entries, sig) {
      var i, j :| 0 <= i < |entries| && 0 <= j < |entries|
        && entries[i].0 == sig && entries[j].0 == sig && entries[i].1.backend != entries[j].1.backend;
      assert (sig, entries[i].1) in entries && (sig, entries[j].1) in entries;
      SelectMembers(entries, sig, entries[i].1);
      SelectMembers(entries, sig, entries[j].1);
    }
    if a, b :| a in Select(entries, sig) && b in Select(entries, sig) && a.backend != b.backend {
      SelectMembers(entries, sig, a);
      SelectMembers(entries, sig, b);
      var i :| 0 <= i < |entries| && entries[i] == (sig, a);
      var j :| 0 <= j < |entries| && entries[j] == (sig, b);
    }
  }

  method CollectEntries(ings: seq<Ingress>, canaries: set<ObjectKey>) returns (bySignature: map<string, seq<Entry>>)
    ensures bySignature == Group(Keyed(AllEntries(ings, canaries)))
  {
    bySignature := map[];
    for i := 0 to |ings|
      invariant bySignature == Group(Keyed(AllEntries(ings[..i], canaries)))
    {
      assert ings[..i + 1][..i] == ings[..i];
      if ings[i].key in canaries {
        continue;
      }
      bySignature := CollectIngress(ings[i], AllEntries(ings[..i], canaries), bySignature);
    }
    assert ings[..|ings|] == ings;
  }

  /** The loop over the rules of one Ingress. */
  method CollectIngress(ing: Ingress, ghost before: seq<(Match, Entry)>, grouped: map<string, seq<Entry>>)
    returns (bySignature: map<string, seq<Entry>>)
    requires grouped == Group(Keyed(before))
    ensures bySignature == Group(Keyed(before + IngressEntries(ing, ing.rules)))
  {
    bySignature := grouped;
    assert before + IngressEntries(ing, ing.rules[..0]) == before;
    for r := 0 to |ing.rules|
      invariant bySignature == Group(Keyed(before + IngressEntries(ing, ing.rules[..r])))
    {
      RuleSnoc(ing, before, r);
      bySignature := CollectPaths(ing, ing.rules[r], before + IngressEntries(ing, ing.rules[..r]), bySignature);
    }
    assert ing.rules[..|ing.rules|] == ing.rules;
  }

  lemma RuleSnoc(ing: Ingress, before: seq<(Match, Entry)>, r: nat)
    requires r < |ing.rules|
    ensures before + IngressEntries(ing, ing.rules[..r + 1])
            == before + IngressEntries(ing, ing.rules[..r]) + RuleEntries(ing, ing.rules[r], ing.rules[r].Paths())
  {
    assert ing.rules[..r + 1][..r] == ing.rules[..r];
    var a, b := IngressEntries(ing, ing.rules[..r]), RuleEntries(ing, ing.rules[r], ing.rules[r].Paths());
    assert before + (a + b) == before + a + b;
  }

  lemma PathSnoc(ing: Ingress, rule: IngressRule, before: seq<(Match, Entry)>, paths: seq<IngressPath>, j: nat)
    requires j < |paths|
    ensures before + RuleEntries(ing, rule, paths[..j + 1])
            == before + RuleEntries(ing, rule, paths[..j])
               + [(MatchIn(rule, paths[j]), Entry(ing.key, SignatureOf(paths[j].backend)))]
  {
    assert paths[..j + 1][..j] == paths[..j];
  }

  /** The loop over the paths of one rule. */
  method CollectPaths(ing: Ingress, rule: IngressRule, ghost before: seq<(Match, Entry)>,
                      grouped: map<string, seq<Entry>>)
    returns (bySignature: map<string, seq<Entry>>)
    requires grouped == Group(Keyed(before))
    ensures bySignature == Group(Keyed(before + RuleEntries(ing, rule, rule.Paths())))
  {
    bySignature := grouped;
    var paths := rule.Paths();
    assert before + RuleEntries(ing, rule, paths[..0]) == before;
    for j := 0 to |paths|
      invariant bySignature == Group(Keyed(before + RuleEntries(ing, rule, paths[..j])))
    {
      var m, en := MatchIn(rule, paths[j]), Entry(ing.key, SignatureOf(paths[j].backend));
      var sig := MatchText(m);
      KeyedSnoc(before + RuleEntries(ing, rule, paths[..j]), m, en);
      PathSnoc(ing, rule, before, paths, j);
      bySignature := bySignature[sig := (if sig in bySignature then bySignature[sig] else []) + [en]];
    }
    assert paths[..|paths|] == paths;
  }

  lemma KeyedSnoc(entries: seq<(Match, Entry)>, m: Match, en: Entry)
    ensures Group(Keyed(entries + [(m, en)]))
            == var grouped := Group(Keyed(entries));
               grouped[MatchText(m) := (if MatchText(m) in grouped then grouped[MatchText(m)] else []) + [en]]
  {
    assert Keyed(entries + [(m, en)]) == Keyed(entries) + [(MatchText(m), en)];
    GroupSnoc(Keyed(entries), MatchText(m), en);
  }

  /** The distinct backends of a group, as the source's inner map collects them. */
  method DistinctBackends(group: seq<Entry>) returns (distinct: set<BackendSignature>)
    ensures distinct == set en | en in group :: en.backend
  {
    distinct := {};
    for i := 0 to |group|
      invariant distinct == set en | en in group[..i] :: en.backend
    {
      assert group[..i + 1] == group[..i] + [group[i]];
      distinct := distinct + {group[i].backend};
    }
    assert group[..|group|] == group;
  }

  lemma TwoBackends(group: seq<Entry>, distinct: set<BackendSignature>)
    requires distinct == set en | en in group :: en.backend
    ensures |distinct| >= 2 <==> exists a, b :: a in group && b in group && a.backend != b.backend
    ensures |distinct| >= 2 ==> |group| >= 2
  {
    if a, b :| a in group && b in group && a.backend != b.backend {
      assert {a.backend, b.backend} <= distinct;
      SubsetSmaller({a.backend, b.backend}, distinct);
    } else if distinct != {} {
      var x :| x in distinct;
      var a :| a in group && a.backend == x;
      assert forall y | y in distinct :: y == x;
      assert distinct == {x};
    }
    if |group| == 1 { assert group == [group[0]]; assert distinct == {group[0].backend}; }
    if |group| == 0 { assert distinct == {}; }
  }

  lemma SubsetSmaller<T>(a: set<T>, b: set<T>)
    requires a <= b
    ensures |a| <= |b|
  {
    assert b == a + (b - a);
  }

  /** What a report says about one signature. */
  ghost predicate Accurate(entries: seq<(string, Entry)>, i: Issue) {
    && i.severity == Warning && i.kind == OverlappingMatch
    && AmbiguousText(entries, i.subject)
    && Select(entries, i.subject) != [] && i.ingress == Select(entries, i.subject)[0].ingress
  }

  /** Exactly one accurate report for each ambiguous signature among `sigs`. */
  ghost predicate Reported(entries: seq<(string, Entry)>, sigs: set<string>, issues: seq<Issue>) {
    && (forall i, j | 0 <= i < j < |issues| :: issues[i].subject != issues[j].subject)
    && (forall i | i in issues :: Accurate(entries, i) && i.subject in sigs)
    && (forall sig | sig in sigs && AmbiguousText(entries, sig) :: exists i :: i in issues && i.subject == sig)
  }

  /** Reports each ambiguous match exactly once, as a warning on the first Ingress that has it; the
      order of the reports is the map's. */
  method Check(ings: seq<Ingress>, canaries: set<ObjectKey>) returns (issues: seq<Issue>)
    ensures var entries := Keyed(AllEntries(ings, canaries));
            && Reported(entries, Group(entries).Keys, issues)
            && forall sig | AmbiguousText(entries, sig) :: sig in Group(entries)
  {
    ghost var entries := Keyed(AllEntries(ings, canaries));
    var bySignature := CollectEntries(ings, canaries);
    issues := [];
    var rest := bySignature.Keys;
    while rest != {}
      invariant rest <= bySignature.Keys
      invariant Reported(entries, bySignature.Keys - rest, issues)
    {
      var sig :| sig in rest;
      ghost var visited := bySignature.Keys - rest;
      rest := rest - {sig};
      assert bySignature.Keys - rest == visited + {sig};
      var report := CheckGroup(entries, sig, bySignature[sig]);
      if report.Some? {
        ReportOne(entries, visited, issues, report.value);
        issues := issues + [report.value];
      }
    }
    assert bySignature.Keys - rest == bySignature.Keys;
    forall sig | AmbiguousText(entries, sig)
      ensures sig in Group(entries)
    {
      GroupSelects(entries, sig);
      AmbiguousGroup(entries, sig);
    }
  }

  lemma ReportOne(entries: seq<(string, Entry)>, sigs: set<string>, issues: seq<Issue>, i: Issue)
    requires Reported(entries, sigs, issues) && Accurate(entries, i) && i.subject !in sigs
    ensures Reported(entries, sigs + {i.subject}, issues + [i])
  {
    assert forall j | 0 <= j < |issues| :: issues[j] in issues;
    assert i in issues + [i] && forall x | x in issues :: x in issues + [i];
  }

  /** The body of the loop over the groups. */
  method CheckGroup(ghost entries: seq<(string, Entry)>, sig: string, group: seq<Entry>) returns (report: Option<Issue>)
    requires sig in Group(entries) && group == Group(entries)[sig]
    ensures report.Some? <==> AmbiguousText(entries, sig)
    ensures report.Some? ==> report.value.subject == sig && Accurate(entries, report.value)
  {
    GroupSelects(entries, sig);
    AmbiguousGroup(entries, sig);
    if |group| < 2 {
      TwoBackends(group, set en | en in group :: en.backend);
      return None;
    }
    var distinct := DistinctBackends(group);
    TwoBackends(group, distinct);
    if |distinct| < 2 {
      return None;
    }
    return Some(Issue(group[0].ingress, Warning, OverlappingMatch, sig));
  }

  /*** Whom the warnings concern ***/

  /** The Ingress sends this match to this backend. */
  ghost predicate Lists(ing: Ingress, m: Match, backend: BackendSignature) {
    exists r, p :: Sends(ing, r, p, m, backend)
  }

  predicate Sends(ing: Ingress, r: IngressRule, p: IngressPath, m: Match, backend: BackendSignature) {
    r in ing.rules && p in r.Paths() && MatchIn(r, p) == m && SignatureOf(p.backend) == backend
  }

  lemma {:induction false} RuleEntriesListed(ing: Ingress, r: IngressRule, paths: seq<IngressPath>, m: Match, en: Entry)
    ensures (m, en) in RuleEntries(ing, r, paths)
            <==> en.ingress == ing.key
                 && exists p :: p in paths && MatchIn(r, p) == m && SignatureOf(p.backend) == en.backend
  {
    if paths != [] {
      assert paths == paths[..|paths| - 1] + [paths[|paths| - 1]];
      RuleEntriesListed(ing, r, paths[..|paths| - 1], m, en);
    }
  }

  lemma {:induction false} IngressEntriesListed(ing: Ingress, rules: seq<IngressRule>, m: Match, en: Entry)
    requires forall r | r in rules :: r in ing.rules
    ensures (m, en) in IngressEntries(ing, rules)
            <==> en.ingress == ing.key && exists r, p :: r in rules && Sends(ing, r, p, m, en.backend)
  {
    if rules != [] {
      var init, r := rules[..|rules| - 1], rules[|rules| - 1];
      assert rules == init + [r];
      IngressEntriesListed(ing, init, m, en);
      RuleEntriesListed(ing, r, r.Paths(), m, en);
      if en.ingress == ing.key {
        if p :| p in r.Paths() && MatchIn(r, p) == m && SignatureOf(p.backend) == en.backend {
          assert Sends(ing, r, p, m, en.backend);
        }
      }
    }
  }

  /** The entries are exactly what the unpaired Ingresses list. */
  lemma {:induction false} EntriesListed(ings: seq<Ingress>, canaries: set<ObjectKey>, m: Match, en: Entry)
    ensures (m, en) in AllEntries(ings, canaries)
            <==> exists ing :: ing in ings && ing.key !in canaries && ing.key == en.ingress && Lists(ing, m, en.backend)
  {
    if ings != [] {
      var init, last := ings[..|ings| - 1], ings[|ings| - 1];
      assert ings == init + [last];
      EntriesListed(init, canaries, m, en);
      IngressEntriesListed(last, last.rules, m, en);
    }
  }

  /** Two unpaired Ingresses list the match. */
  ghost predicate Shared(ings: seq<Ingress>, canaries: set<ObjectKey>, m: Match) {
    exists x, y :: ListsAny(ings, canaries, x, m) && ListsAny(ings, canaries, y, m) && x.key != y.key
  }

  ghost predicate ListsAny(ings: seq<Ingress>, canaries: set<ObjectKey>, ing: Ingress, m: Match) {
    ing in ings && ing.key !in canaries && exists b :: Lists(ing, m, b)
  }

  /** One unpaired Ingress contradicts itself about a match nobody else lists. */
  ghost predicate Alone(ings: seq<Ingress>, canaries: set<ObjectKey>, ing: Ingress, m: Match) {
    && ListsAny(ings, canaries, ing, m)
    && (exists b, c :: Lists(ing, m, b) && Lists(ing, m, c) && b != c)
    && forall other | ListsAny(ings, canaries, other, m) :: other.key == ing.key
  }

  /** Two unpaired Ingresses, or one, send the match to different backends. */
  ghost predicate Disagree(ings: seq<Ingress>, canaries: set<ObjectKey>, x: Ingress, y: Ingress, m: Match) {
    && x in ings && x.key !in canaries && y in ings && y.key !in canaries
    && exists b, c :: Lists(x, m, b) && Lists(y, m, c) && b != c
  }

  lemma DisagreementIsAmbiguous(ings: seq<Ingress>, canaries: set<ObjectKey>, x: Ingress, y: Ingress, m: Match)
    requires Disagree(ings, canaries, x, y, m)
    ensures Ambiguous(AllEntries(ings, canaries), m)
  {
    var entries := AllEntries(ings, canaries);
    var b, c :| Lists(x, m, b) && Lists(y, m, c) && b != c;
    EntriesListed(ings, canaries, m, Entry(x.key, b));
    EntriesListed(ings, canaries, m, Entry(y.key, c));
    var i :| 0 <= i < |entries| && entries[i] == (m, Entry(x.key, b));
    var j :| 0 <= j < |entries| && entries[j] == (m, Entry(y.key, c));
  }

  lemma AmbiguityIsDisagreement(ings: seq<Ingress>, canaries: set<ObjectKey>, m: Match)
    returns (x: Ingress, y: Ingress)
    requires Ambiguous(AllEntries(ings, canaries), m)
    ensures Disagree(ings, canaries, x, y, m)
  {
    var entries := AllEntries(ings, canaries);
    var i, j :| 0 <= i < |entries| && 0 <= j < |entries|
      && entries[i].0 == m && entries[j].0 == m && entries[i].1.backend != entries[j].1.backend;
    var a, b := entries[i].1, entries[j].1;
    assert (m, a) in entries && (m, b) in entries;
    EntriesListed(ings, canaries, m, a);
    EntriesListed(ings, canaries, m, b);
    x :| x in ings && x.key !in canaries && x.key == a.ingress && Lists(x, m, a.backend);
    y :| y in ings && y.key !in canaries && y.key == b.ingress && Lists(y, m, b.backend);
  }

  lemma SameKeySameIngress(ings: seq<Ingress>, a: Ingress, b: Ingress)
    requires DistinctKeys(ings) && a in ings && b in ings && a.key == b.key
    ensures a == b
  {
    var i :| 0 <= i < |ings| && ings[i] == a;
    var j :| 0 <= j < |ings| && ings[j] == b;
  }

  lemma SharedUnlessAlone(ings: seq<Ingress>, canaries: set<ObjectKey>, m: Match)
    requires DistinctKeys(ings) && Ambiguous(AllEntries(ings, canaries), m)
    ensures Shared(ings, canaries, m) <==> forall ing :: !Alone(ings, canaries, ing, m)
  {
    var x, y := AmbiguityIsDisagreement(ings, canaries, m);
    assert ListsAny(ings, canaries, x, m) && ListsAny(ings, canaries, y, m);
    if !Shared(ings, canaries, m) {
      SameKeySameIngress(ings, x, y);
      assert Alone(ings, canaries, x, m);
    }
  }

  /** The match a text stands for. */
  ghost predicate Concerns(ings: seq<Ingress>, canaries: set<ObjectKey>, i: Issue, m: Match) {
    MatchText(m) == i.subject && Ambiguous(AllEntries(ings, canaries), m)
  }

  lemma ReportHasMatch(entries: seq<(Match, Entry)>, sig: string) returns (m: Match)
    requires AmbiguousText(Keyed(entries), sig) && forall x | x in entries :: NoBars(x.0)
    ensures MatchText(m) == sig && NoBars(m) && Ambiguous(entries, m)
  {
    var i, j :| 0 <= i < |entries| && 0 <= j < |entries| && Keyed(entries)[i].0 == sig && Keyed(entries)[j].0 == sig
      && Keyed(entries)[i].1.backend != Keyed(entries)[j].1.backend;
    m := entries[i].0;
    assert entries[i] in entries;
    TextAmbiguityIsAmbiguity(entries, m);
  }

  /** The warnings speak of several Ingresses. For any reports of `Check`, each concerns a match that two
      of them share exactly when no unpaired Ingress contradicts itself about a match nobody else lists. */
  lemma ReportsConcernSeveralExactlyWhen(ings: seq<Ingress>, canaries: set<ObjectKey>, issues: seq<Issue>)
    requires DistinctKeys(ings) && forall x | x in AllEntries(ings, canaries) :: NoBars(x.0)
    requires var entries := Keyed(AllEntries(ings, canaries));
             && Reported(entries, Group(entries).Keys, issues)
             && forall sig | AmbiguousText(entries, sig) :: sig in Group(entries)
    ensures (forall i, m | i in issues && Concerns(ings, canaries, i, m) :: Shared(ings, canaries, m))
            <==> forall ing, m :: !Alone(ings, canaries, ing, m)
    ensures forall i | i in issues :: exists m :: Concerns(ings, canaries, i, m)
  {
    var all := AllEntries(ings, canaries);
    forall i | i in issues
      ensures exists m :: Concerns(ings, canaries, i, m)
    {
      var m := ReportHasMatch(all, i.subject);
      assert Concerns(ings, canaries, i, m);
    }
    forall ing, m | Alone(ings, canaries, ing, m)
      ensures exists i :: i in issues && Concerns(ings, canaries, i, m) && !Shared(ings, canaries, m)
    {
      DisagreementIsAmbiguous(ings, canaries, ing, ing, m);
      SharedUnlessAlone(ings, canaries, m);
      ListedNoBars(ings, canaries, ing, m);
      TextAmbiguityIsAmbiguity(all, m);
      var i :| i in issues && i.subject == MatchText(m);
      assert Concerns(ings, canaries, i, m);
    }
    forall i, m | i in issues && Concerns(ings, canaries, i, m)
      ensures Shared(ings, canaries, m) <==> forall ing :: !Alone(ings, canaries, ing, m)
    {
      SharedUnlessAlone(ings, canaries, m);
    }
  }

  lemma ListedNoBars(ings: seq<Ingress>, canaries: set<ObjectKey>, ing: Ingress, m: Match)
    requires ListsAny(ings, canaries, ing, m) && forall x | x in AllEntries(ings, canaries) :: NoBars(x.0)
    ensures NoBars(m)
  {
    var b :| Lists(ing, m, b);
    EntriesListed(ings, canaries, m, Entry(ing.key, b));
  }

  /** And one can: a single Ingress listing a match twice with different backends is on its own. */
  lemma OneIngressOverlapsItself(key: ObjectKey, host: string, path: string, a: string, b: string)
    requires a != b
    ensures var twice := [IngressPath(path, Some(Prefix), ServiceBackend(a, ServicePort(80, ""))),
                          IngressPath(path, Some(Prefix), ServiceBackend(b, ServicePort(80, "")))];
            var ing := Ingress(key, map[], [IngressRule(host, Some(twice))], false, 0);
            && Ambiguous(AllEntries([ing], {}), Match(host, Prefix, path))
            && Alone([ing], {}, ing, Match(host, Prefix, path))
  {
    var x := IngressPath(path, Some(Prefix), ServiceBackend(a, ServicePort(80, "")));
    var y := IngressPath(path, Some(Prefix), ServiceBackend(b, ServicePort(80, "")));
    var rule := IngressRule(host, Some([x, y]));
    var ing := Ingress(key, map[], [rule], false, 0);
    var m := Match(host, Prefix, path);
    var first, second := (m, Entry(key, Numbered(a, 80))), (m, Entry(key, Numbered(b, 80)));
    assert [x, y][..1] == [x] && [x][..0] == [] && [rule][..0] == [] && [ing][..0] == [];
    assert RuleEntries(ing, rule, [x]) == [first];
    assert RuleEntries(ing, rule, [x, y]) == [first, second];
    assert IngressEntries(ing, [rule]) == [first, second];
    var entries := AllEntries([ing], {});
    assert AllEntries([], {}) == [] && [ing][|[ing]| - 1] == ing;
    assert entries == [] + IngressEntries(ing, ing.rules);
    assert entries == [first, second];
    assert entries[0].1.backend != entries[1].1.backend;
    assert Sends(ing, rule, x, m, Numbered(a, 80)) && Sends(ing, rule, y, m, Numbered(b, 80));
    assert Lists(ing, m, Numbered(a, 80)) && Lists(ing, m, Numbered(b, 80));
  }

  /*** The same over rules and paths alone ***/

  /** Two listed paths are the same match: same host, same path as written, same type, absent being Prefix. */
  predicate SameMatch(r: IngressRule, p: IngressPath, q: IngressRule, x: IngressPath) {
    && r.host == q.host && p.path == x.path
    && (if p.pathType.Some? then p.pathType.value else Prefix) == (if x.pathType.Some?
                                                                   then x.pathType.value else Prefix)
  }

  /** Two backends are written alike: both resources, or one Service name with one port number, or, without
      numbers, one port name. */
  predicate SameBackend(a: Backend, b: Backend) {
    || (a.ResourceBackend? && b.ResourceBackend?)
    || (a.ServiceBackend? && b.ServiceBackend? && a.name == b.name && a.port.number == b.port.number
        && (a.port.number == 0 ==> a.port.name == b.port.name))
  }

  lemma SignaturesCompare(r: IngressRule, p: IngressPath, q: IngressRule, x: IngressPath)
    ensures MatchIn(r, p) == MatchIn(q, x) <==> SameMatch(r, p, q, x)
    ensures SignatureOf(p.backend) == SignatureOf(x.backend) <==> SameBackend(p.backend, x.backend)
  {
  }

  /** An unpaired Ingress lists this path in this rule. */
  predicate ListsPath(ings: seq<Ingress>, canaries: set<ObjectKey>, ing: Ingress, r: IngressRule, p: IngressPath) {
    ing in ings && ing.key !in canaries && r in ing.rules && r.http.Some? && p in r.http.value
  }

  /** Another listed path is the same match with another backend. */
  ghost predicate Contradicted(ings: seq<Ingress>, canaries: set<ObjectKey>, r: IngressRule, p: IngressPath) {
    exists y, q, x :: ListsPath(ings, canaries, y, q, x) && SameMatch(r, p, q, x) && !SameBackend(p.backend, x.backend)
  }

  lemma ContradictedExactlyWhen(ings: seq<Ingress>, canaries: set<ObjectKey>, ing: Ingress, r: IngressRule,
                                p: IngressPath)
    requires ListsPath(ings, canaries, ing, r, p)
    ensures Ambiguous(AllEntries(ings, canaries), MatchIn(r, p))
            <==> exists y, q, x ::
                ListsPath(ings, canaries, y, q, x) && Contradicted(ings, canaries, q, x) && SameMatch(r, p, q, x)
  {
    var m := MatchIn(r, p);
    if Ambiguous(AllEntries(ings, canaries), m) {
      var a, b := AmbiguityIsDisagreement(ings, canaries, m);
      var sa, sb :| Lists(a, m, sa) && Lists(b, m, sb) && sa != sb;
      var ra, pa :| Sends(a, ra, pa, m, sa);
      var rb, pb :| Sends(b, rb, pb, m, sb);
      SignaturesCompare(ra, pa, rb, pb);
      SignaturesCompare(r, p, ra, pa);
      assert ListsPath(ings, canaries, b, rb, pb) && ListsPath(ings, canaries, a, ra, pa);
      assert Contradicted(ings, canaries, ra, pa);
    }
    if y, q, x :| ListsPath(ings, canaries, y, q, x) && Contradicted(ings, canaries, q, x) && SameMatch(r, p, q, x) {
      var z, t, w :| ListsPath(ings, canaries, z, t, w) && SameMatch(q, x, t, w) && !SameBackend(x.backend, w.backend);
      SignaturesCompare(r, p, q, x);
      SignaturesCompare(q, x, t, w);
      assert Sends(y, q, x, m, SignatureOf(x.backend)) && Sends(z, t, w, m, SignatureOf(w.backend));
      assert Lists(y, m, SignatureOf(x.backend)) && Lists(z, m, SignatureOf(w.backend));
      DisagreementIsAmbiguous(ings, canaries, y, z, m);
    }
  }

  /** The reports of `Check`: one for a listed path exactly when its match is listed with two backends. */
  lemma ReportedExactlyWhen(ings: seq<Ingress>, canaries: set<ObjectKey>, issues: seq<Issue>,
                            ing: Ingress, r: IngressRule, p: IngressPath)
    requires forall x | x in AllEntries(ings, canaries) :: NoBars(x.0)
    requires ListsPath(ings, canaries, ing, r, p)
    requires var entries := Keyed(AllEntries(ings, canaries));
             && Reported(entries, Group(entries).Keys, issues)
             && forall sig | AmbiguousText(entries, sig) :: sig in Group(entries)
    ensures (exists i :: i in issues && i.subject == MatchText(MatchIn(r, p)))
            <==> exists y, q, x ::
                ListsPath(ings, canaries, y, q, x) && Contradicted(ings, canaries, q, x) && SameMatch(r, p, q, x)
  {
    var all, m, en := AllEntries(ings, canaries), MatchIn(r, p), Entry(ing.key, SignatureOf(p.backend));
    assert Sends(ing, r, p, m, en.backend) && Lists(ing, m, en.backend);
    EntriesListed(ings, canaries, m, en);
    assert NoBars((m, en).0);
    TextAmbiguityIsAmbiguity(all, m);
    ContradictedExactlyWhen(ings, canaries, ing, r, p);
  }
}
