/** The npm advisory walk and the image waivers of the release gate. */
module SecurityGate {
  import opened Prelude

  datatype Severity = Unknown | Info | Low | Moderate | High | Critical

  predicate Serious(s: Severity) {
    s == High || s == Critical
  }

  /** A package is affected through another package, or by an advisory of its own. */
  datatype Via = Through(name: string) | Advisory(severity: Severity, url: string)

  datatype Entry = Entry(severity: Severity, via: seq<Via>)

  type Report = map<string, Entry>

  datatype GateError = MissingPackage | MissingAdvisoryId | UnknownSeverity | NoAdvisory | InvalidReport

  function AfterLastSlash(url: string): string {
    if '/' !in url then url
    else if url[0] == '/' && '/' !in url[1..] then url[1..]
    else AfterLastSlash(url[1..])
  }

  predicate IsAdvisoryId(id: string) {
    "GHSA-" <= id
  }

  // -------------------------------------------------------------- the walk

  /** The walk as written: it never revisits a package on its current path. */
  function AdvisoryIds(report: Report, name: string, seen: set<string>): (r: Result<set<string>, GateError>)
    ensures r.Err? ==> r.error == MissingPackage || r.error == MissingAdvisoryId
    decreases |report.Keys - seen|, 0
  {
    if name in seen then Ok({})
    else if name !in report then Err(MissingPackage)
    else
      assert report.Keys - (seen + {name}) < report.Keys - seen;
      SmallerSet(report.Keys - (seen + {name}), report.Keys - seen);
      IdsOf(report, report[name].via, seen + {name})
  }

  function IdsOf(report: Report, via: seq<Via>, seen: set<string>): (r: Result<set<string>, GateError>)
    ensures r.Err? ==> r.error == MissingPackage || r.error == MissingAdvisoryId
    decreases |report.Keys - seen|, 1 + |via|
  {
    if via == [] then Ok({})
    else
      var first := match via[0]
        case Through(name) =>
          AdvisoryIds(report, name, seen)
        case Advisory(severity, url) =>
          if !Serious(severity) then Ok({})
          else if !IsAdvisoryId(AfterLastSlash(url)) then Err(MissingAdvisoryId)
          else Ok({AfterLastSlash(url)});
      match first
      case Err(e) => Err(e)
      case Ok(ids) =>
        match IdsOf(report, via[1..], seen)
        case Err(e) => Err(e)
        case Ok(rest) => Ok(ids + rest)
  }

  lemma {:induction false} SmallerSet(a: set<string>, b: set<string>)
    requires a < b
    ensures |a| < |b|
    decreases |a|
  {
    var x :| x in b && x !in a;
    SubsetSize(a, b - {x});
  }

  lemma {:induction false} SubsetSize(a: set<string>, b: set<string>)
    requires a <= b
    ensures |a| <= |b|
    decreases |a|
  {
    if a != {} {
      var x :| x in a;
      SubsetSize(a - {x}, b - {x});
    }
  }

  // --------------------------------------------------------- reachability

  predicate Affects(report: Report, a: string, b: string) {
    a in report && Through(b) in report[a].via
  }

  /** A chain of `via` links, possibly revisiting packages. */
  ghost predicate Path(report: Report, path: seq<string>, from: string) {
    && path != [] && path[0] == from
    && forall i :: 0 <= i < |path| - 1 ==> Affects(report, path[i], path[i + 1])
  }

  ghost predicate Avoids(path: seq<string>, seen: set<string>) {
    forall i :: 0 <= i < |path| ==> path[i] !in seen
  }

  /** `goal` is reached from `from` without touching `seen`. */
  ghost predicate Reaches(report: Report, from: string, goal: string, seen: set<string>) {
    exists path :: Path(report, path, from) && Avoids(path, seen) && path[|path| - 1] == goal
  }

  /** A serious advisory of package `p`, by identifier. */
  predicate Names(report: Report, p: string, id: string) {
    p in report && exists v :: v in report[p].via && v.Advisory? && Serious(v.severity)
                               && AfterLastSlash(v.url) == id
  }

  /** The walk cannot account for `p`: it is not listed, or a serious advisory has no identifier. */
  predicate Unauditable(report: Report, p: string) {
    p !in report || exists v :: v in report[p].via && v.Advisory? && Serious(v.severity)
                                && !IsAdvisoryId(AfterLastSlash(v.url))
  }

  lemma ReachesItself(report: Report, p: string, seen: set<string>)
    requires p !in seen
    ensures Reaches(report, p, p, seen)
  {
    assert Path(report, [p], p) && Avoids([p], seen) && [p][|[p]| - 1] == p;
  }

  lemma ReachesThrough(report: Report, p: string, q: string, goal: string, seen: set<string>)
    requires p !in seen && Affects(report, p, q) && Reaches(report, q, goal, seen + {p})
    ensures Reaches(report, p, goal, seen)
  {
    var path :| Path(report, path, q) && Avoids(path, seen + {p}) && path[|path| - 1] == goal;
    var longer := [p] + path;
    assert forall i :: 0 <= i < |longer| - 1 ==>
             Affects(report, longer[i], longer[i + 1]) by {
      forall i | 0 <= i < |longer| - 1
        ensures Affects(report, longer[i], longer[i + 1])
      {
        if i > 0 {
          assert longer[i] == path[i - 1] && longer[i + 1] == path[i - 1 + 1];
        }
      }
    }
    assert Path(report, longer, p) && Avoids(longer, seen) && longer[|longer| - 1] == goal;
  }

  // --------------------------------------------------- nothing is invented

  /** What a walk from `p` returned is owed to a package that `p` reaches. */
  ghost predicate Justified(report: Report, p: string, seen: set<string>, r: Result<set<string>, GateError>) {
    match r
    case Ok(ids) => forall id :: id in ids ==> exists q :: Reaches(report, p, q, seen) && Names(report, q, id)
    case Err(_) => exists q :: Reaches(report, p, q, seen) && Unauditable(report, q)
  }

  lemma {:induction false} WalkIsJustified(report: Report, p: string, seen: set<string>)
    requires p !in seen
    ensures Justified(report, p, seen, AdvisoryIds(report, p, seen))
    decreases |report.Keys - seen|, 0
  {
    ReachesItself(report, p, seen);
    if p in report {
      SmallerSet(report.Keys - (seen + {p}), report.Keys - seen);
      IdsAreJustified(report, p, report[p].via, seen);
    } else {
      assert Unauditable(report, p);
    }
  }

  /** What one `via` item of package `p` contributes. */
  function IdsOfItem(report: Report, v: Via, seen: set<string>): Result<set<string>, GateError> {
    match v
    case Through(name) => AdvisoryIds(report, name, seen)
    case Advisory(severity, url) =>
      if !Serious(severity) then Ok({})
      else if !IsAdvisoryId(AfterLastSlash(url)) then Err(MissingAdvisoryId)
      else Ok({AfterLastSlash(url)})
  }

  lemma IdsOfStep(report: Report, via: seq<Via>, seen: set<string>)
    requires via != []
    ensures var first := IdsOfItem(report, via[0], seen);
            var rest := IdsOf(report, via[1..], seen);
            IdsOf(report, via, seen) ==
            if first.Err? then first else if rest.Err? then rest else Ok(first.value + rest.value)
  {
  }

  lemma {:induction false} IdsAreJustified(report: Report, p: string, via: seq<Via>, seen: set<string>)
    requires p !in seen && p in report && forall v :: v in via ==> v in report[p].via
    ensures Justified(report, p, seen, IdsOf(report, via, seen + {p}))
    decreases |report.Keys - (seen + {p})|, 1 + |via|
  {
    if via != [] {
      IdsAreJustified(report, p, via[1..], seen);
      assert via[0] in report[p].via;
      match via[0] {
        case Through(q) =>
          if q !in seen + {p} {
            WalkIsJustified(report, q, seen + {p});
            LiftJustified(report, p, q, seen, AdvisoryIds(report, q, seen + {p}));
          }
        case Advisory(_, _) =>
          OwnAdvisoryIsJustified(report, p, via[0], seen);
      }
      IdsOfStep(report, via, seen + {p});
      JustifiedUnion(report, p, seen,
        IdsOfItem(report, via[0], seen + {p}), IdsOf(report, via[1..], seen + {p}));
    }
  }

  lemma OwnAdvisoryIsJustified(report: Report, p: string, v: Via, seen: set<string>)
    requires p !in seen && p in report && v in report[p].via && v.Advisory?
    ensures Justified(report, p, seen, IdsOfItem(report, v, seen + {p}))
  {
    ReachesItself(report, p, seen);
    if Serious(v.severity) {
      assert if IsAdvisoryId(AfterLastSlash(v.url)) then Names(report, p, AfterLastSlash(v.url))
             else Unauditable(report, p);
    }
  }

  lemma JustifiedUnion(
      report: Report, p: string, seen: set<string>,
      first: Result<set<string>, GateError>, rest: Result<set<string>, GateError>)
    requires Justified(report, p, seen, first) && Justified(report, p, seen, rest)
    ensures Justified(report, p, seen,
              if first.Err? then first else if rest.Err? then rest else Ok(first.value + rest.value))
  {
  }

  lemma LiftJustified(report: Report, p: string, q: string, seen: set<string>, r: Result<set<string>, GateError>)
    requires p !in seen && Affects(report, p, q)
    requires Justified(report, q, seen + {p}, r)
    ensures Justified(report, p, seen, r)
  {
    match r
    case Ok(ids) =>
      forall id | id in ids
        ensures exists g :: Reaches(report, p, g, seen) && Names(report, g, id)
      {
        var g :| Reaches(report, q, g, seen + {p}) && Names(report, g, id);
        ReachesThrough(report, p, q, g, seen);
      }
    case Err(_) =>
      var g :| Reaches(report, q, g, seen + {p}) && Unauditable(report, g);
      ReachesThrough(report, p, q, g, seen);
  }

  // ------------------------------------------------------ nothing is missed

  /** The answer accounts for package `q`. */
  ghost predicate Covers(report: Report, r: Result<set<string>, GateError>, q: string) {
    r.Ok? ==> !Unauditable(report, q) && forall id :: Names(report, q, id) ==> id in r.value
  }

  lemma {:induction false} IdsContain(report: Report, via: seq<Via>, seen: set<string>, v: Via)
    requires v in via && IdsOf(report, via, seen).Ok?
    ensures var ids := IdsOf(report, via, seen).value;
            match v
            case Through(q) => AdvisoryIds(report, q, seen).Ok? && AdvisoryIds(report, q, seen).value <= ids
            case Advisory(severity, url) =>
              Serious(severity) ==> IsAdvisoryId(AfterLastSlash(url)) && AfterLastSlash(url) in ids
    decreases |via|
  {
    if v != via[0] {
      assert v in via[1..];
      IdsContain(report, via[1..], seen, v);
    }
  }

  /** Paths that revisit a package can be cut, so the walk's restriction loses nothing. */
  lemma {:induction false} WalkCovers(report: Report, p: string, seen: set<string>, path: seq<string>)
    requires p !in seen && Path(report, path, p) && Avoids(path, seen)
    ensures Covers(report, AdvisoryIds(report, p, seen), path[|path| - 1])
    decreases |path|
  {
    var r := AdvisoryIds(report, p, seen);
    if i :| 0 < i < |path| && path[i] == p {
      var shorter := path[i..];
      assert forall k :: 0 <= k < |shorter| - 1 ==>
               Affects(report, path[i + k], path[i + k + 1]) && shorter[k] == path[i + k];
      assert forall k :: 0 <= k < |shorter| ==> shorter[k] == path[i + k];
      WalkCovers(report, p, seen, shorter);
    } else if r.Ok? {
      var via := report[p].via;
      if |path| == 1 {
        forall v | v in via && v.Advisory? && Serious(v.severity)
          ensures IsAdvisoryId(AfterLastSlash(v.url)) && AfterLastSlash(v.url) in r.value
        {
          IdsContain(report, via, seen + {p}, v);
        }
      } else {
        var rest := path[1..];
        assert Affects(report, path[0], path[0 + 1]);
        IdsContain(report, via, seen + {p}, Through(rest[0]));
        forall k | 0 <= k < |rest| - 1
          ensures Affects(report, rest[k], rest[k + 1])
        {
          assert Affects(report, path[k + 1], path[k + 1 + 1]);
        }
        forall k | 0 <= k < |rest|
          ensures rest[k] !in seen + {p}
        {
          assert rest[k] == path[k + 1];
        }
        WalkCovers(report, rest[0], seen + {p}, rest);
      }
    }
  }

  /**
   The walk ends on every graph, cyclic or not. It succeeds exactly when every
   package reached is listed and every serious advisory reached is identified,
   and then returns exactly the serious advisories of the packages reached.
   */
  lemma WalkIsReachability(report: Report, name: string)
    ensures var r := AdvisoryIds(report, name, {});
            && (r.Ok? <==> forall q :: Reaches(report, name, q, {}) ==> !Unauditable(report, q))
            && (r.Ok? ==> forall id :: id in r.value <==>
                  exists q :: Reaches(report, name, q, {}) && Names(report, q, id))
  {
    var r := AdvisoryIds(report, name, {});
    WalkIsJustified(report, name, {});
    forall q | Reaches(report, name, q, {})
      ensures Covers(report, r, q)
    {
      var path :| Path(report, path, name) && Avoids(path, {}) && path[|path| - 1] == q;
      WalkCovers(report, name, {}, path);
    }
  }

  // ------------------------------------------------------------- findings

  datatype Header = Header(error: bool, version: int, total: int)

  /** Every package reached is accounted for, and some serious advisory stands behind the finding. */
  ghost predicate Audited(report: Report, name: string) {
    && (forall q :: Reaches(report, name, q, {}) ==> !Unauditable(report, q))
    && (exists q, id :: Reaches(report, name, q, {}) && Names(report, q, id))
  }

  lemma WalkSucceeds(report: Report, name: string)
    ensures var r := AdvisoryIds(report, name, {});
            Audited(report, name) <==> r.Ok? && r.value != {}
  {
    WalkIsReachability(report, name);
    var r := AdvisoryIds(report, name, {});
    if r.Ok? && r.value != {} {
      var id :| id in r.value;
    }
    if Audited(report, name) {
      var q, id :| Reaches(report, name, q, {}) && Names(report, q, id);
      assert id in r.value;
    }
  }

  ghost predicate Acceptable(report: Report, name: string) {
    name in report && report[name].severity != Unknown && (Serious(report[name].severity) ==> Audited(report, name))
  }

  /** All findings of an npm report: serious packages with the advisories behind them. */
  method NpmFindings(header: Header, report: Report) returns (r: Result<set<(string, string)>, GateError>)
    ensures r == Err(InvalidReport) <==> header.error || header.version != 2 || header.total < 1
    ensures r == Err(UnknownSeverity) ==> exists name :: name in report && report[name].severity == Unknown
    ensures r == Err(NoAdvisory) ==>
              exists name :: name in report && Serious(report[name].severity)
                             && AdvisoryIds(report, name, {}) == Ok({})
    ensures r.Ok? <==> !header.error && header.version == 2 && header.total >= 1
                       && forall name :: name in report ==> Acceptable(report, name)
    ensures r.Ok? ==> forall name, id :: (name, id) in r.value <==>
              name in report && Serious(report[name].severity)
              && exists q :: Reaches(report, name, q, {}) && Names(report, q, id)
  {
    if header.error || header.version != 2 || header.total < 1 {
      return Err(InvalidReport);
    }
    var found: set<(string, string)> := {};
    var todo := report.Keys;
    while todo != {}
      invariant todo <= report.Keys
      invariant forall name :: name in report.Keys - todo ==> Acceptable(report, name)
      invariant forall name, id :: (name, id) in found <==>
                  name in report.Keys - todo && Serious(report[name].severity)
                  && AdvisoryIds(report, name, {}).Ok? && id in AdvisoryIds(report, name, {}).value
    {
      hide Reaches, Names, Unauditable, Audited;
      var name :| name in todo;
      WalkSucceeds(report, name);
      todo := todo - {name};
      if report[name].severity == Unknown {
        return Err(UnknownSeverity);
      }
      if Serious(report[name].severity) {
        var ids := AdvisoryIds(report, name, {});
        if ids.Err? {
          return Err(ids.error);
        }
        if ids.value == {} {
          return Err(NoAdvisory);
        }
        found := found + (set id | id in ids.value :: (name, id));
      }
    }
    forall name, id
      ensures (name, id) in found <==>
              name in report && Serious(report[name].severity)
              && exists q :: Reaches(report, name, q, {}) && Names(report, q, id)
    {
      if name in report && Serious(report[name].severity) {
        assert Acceptable(report, name);
        WalkSucceeds(report, name);
        WalkIsReachability(report, name);
      }
    }
    r := Ok(found);
  }

  // --------------------------------------------------------- image waivers

  datatype Occurrence = Occurrence(package: string, id: string, severity: ImageSeverity, version: Option<string>)

  datatype ImageSeverity = UnknownRisk | LowRisk | MediumRisk | HighRisk | CriticalRisk | Unlisted

  datatype Waiver = Waiver(forImage: bool, profile: string, package: string, id: string, version: string)

  predicate Blocking(s: ImageSeverity) {
    s in {HighRisk, CriticalRisk, UnknownRisk}
  }

  predicate Waives(w: Waiver, profile: Option<string>, o: Occurrence) {
    w.forImage && profile == Some(w.profile) && w.package == o.package && w.id == o.id
    && o.version == Some(w.version)
  }

  predicate Waived(waivers: seq<Waiver>, profile: Option<string>, o: Occurrence) {
    exists i :: 0 <= i < |waivers| && Waives(waivers[i], profile, o)
  }

  /** Two passes: first the keys that block, then every occurrence of such a key. */
  method BlockedImages(occurrences: seq<Occurrence>, waivers: seq<Waiver>, profile: Option<string>)
    returns (r: Result<set<(string, string)>, GateError>)
    ensures r.Err? <==> exists i :: 0 <= i < |occurrences| && occurrences[i].severity == Unlisted
    ensures r.Ok? ==> forall p, id :: (p, id) in r.value <==>
              && (exists i :: 0 <= i < |occurrences| && (occurrences[i].package, occurrences[i].id) == (p, id)
                              && Blocking(occurrences[i].severity))
              && (exists i :: 0 <= i < |occurrences| && (occurrences[i].package, occurrences[i].id) == (p, id)
                              && !Waived(waivers, profile, occurrences[i]))
  {
    var raw: set<(string, string)> := {};
    for i := 0 to |occurrences|
      invariant forall k :: 0 <= k < i ==> occurrences[k].severity != Unlisted
      invariant forall key :: key in raw <==>
                  exists k :: 0 <= k < i && (occurrences[k].package, occurrences[k].id) == key
                              && Blocking(occurrences[k].severity)
    {
      var o := occurrences[i];
      if o.severity == Unlisted {
        return Err(UnknownSeverity);
      }
      if Blocking(o.severity) {
        raw := raw + {(o.package, o.id)};
      }
    }
    var blocked: set<(string, string)> := {};
    for i := 0 to |occurrences|
      invariant forall key :: key in blocked <==>
                  key in raw && exists k :: 0 <= k < i && (occurrences[k].package, occurrences[k].id) == key
                                            && !Waived(waivers, profile, occurrences[k])
    {
      var o := occurrences[i];
      if (o.package, o.id) in raw && !Waived(waivers, profile, o) {
        blocked := blocked + {(o.package, o.id)};
      }
    }
    r := Ok(blocked);
  }

  // ------------------------------------------------------ what is serious

  /** `id` is what follows the last slash of `url`, or all of it. */
  ghost predicate IsLastPart(url: string, id: string) {
    '/' !in id && (url == id || exists head :: url == head + "/" + id)
  }

  lemma {:induction false} LastPartIsLast(url: string)
    ensures IsLastPart(url, AfterLastSlash(url))
  {
    if '/' in url {
      if url[0] == '/' && '/' !in url[1..] {
        assert url == "" + "/" + url[1..];
      } else {
        LastPartIsLast(url[1..]);
        var id := AfterLastSlash(url);
        var head :| url[1..] == head + "/" + id;
        assert url == ([url[0]] + head) + "/" + id;
      }
    }
  }

  lemma SlashInside(url: string, head: string, id: string)
    requires url == head + "/" + id && '/' !in id
    ensures |head| < |url| && url[|head|] == '/' && url[|head| + 1..] == id
    ensures forall i :: |head| < i < |url| ==> url[i] != '/'
  {
    forall i | |head| < i < |url|
      ensures url[i] != '/'
    {
      assert url[i] == id[i - |head| - 1] && id[i - |head| - 1] in id;
    }
  }

  lemma LastPartIsUnique(url: string, a: string, b: string)
    requires IsLastPart(url, a) && IsLastPart(url, b)
    ensures a == b
  {
    if '/' in url {
      var head :| url == head + "/" + a;
      var other :| url == other + "/" + b;
      SlashInside(url, head, a);
      SlashInside(url, other, b);
      assert |head| == |other|;
    }
  }

  /** A serious advisory: high or critical, and identified by the last part of its address. */
  ghost predicate Identified(v: Via, id: string) {
    v.Advisory? && (v.severity == High || v.severity == Critical) && IsLastPart(v.url, id)
  }

  /** Which advisories count, and which leave a package unaccounted for. */
  lemma AdvisoriesCountExactlyWhen(report: Report, p: string, id: string)
    ensures Names(report, p, id) <==> p in report && exists v :: v in report[p].via && Identified(v, id)
    ensures Unauditable(report, p) <==>
              p !in report || exists v, other :: v in report[p].via && Identified(v, other) && !("GHSA-" <= other)
  {
    if p in report {
      forall v | v in report[p].via && v.Advisory?
        ensures IsLastPart(v.url, AfterLastSlash(v.url))
        ensures forall other :: IsLastPart(v.url, other) ==> other == AfterLastSlash(v.url)
      {
        LastPartIsLast(v.url);
        forall other | IsLastPart(v.url, other)
          ensures other == AfterLastSlash(v.url)
        {
          LastPartIsUnique(v.url, other, AfterLastSlash(v.url));
        }
      }
      hide IsLastPart, AfterLastSlash;
      assert Names(report, p, id) ==> exists v :: v in report[p].via && Identified(v, id);
      if Unauditable(report, p) {
        var v :| v in report[p].via && v.Advisory? && Serious(v.severity) && !IsAdvisoryId(AfterLastSlash(v.url));
        assert Identified(v, AfterLastSlash(v.url));
      }
    }
  }

  /** A waiver covers one package, advisory and version in one image profile, and nothing else. */
  lemma WaiversApplyExactlyWhen(waivers: seq<Waiver>, profile: Option<string>, o: Occurrence)
    ensures Blocking(o.severity) <==> o.severity == HighRisk || o.severity == CriticalRisk || o.severity == UnknownRisk
    ensures Waived(waivers, profile, o) <==>
              profile.Some? && o.version.Some?
              && Waiver(true, profile.value, o.package, o.id, o.version.value) in waivers
  {
    if Waived(waivers, profile, o) {
      var i :| 0 <= i < |waivers| && Waives(waivers[i], profile, o);
      assert waivers[i] == Waiver(true, profile.value, o.package, o.id, o.version.value);
    }
    if profile.Some? && o.version.Some? {
      var w := Waiver(true, profile.value, o.package, o.id, o.version.value);
      if w in waivers {
        var i :| 0 <= i < |waivers| && waivers[i] == w;
        assert Waives(waivers[i], profile, o);
      }
    }
  }
}
