/** The credential-surface manifest, the live hits, and the diff between them. */
module SurfaceManifest {
  import opened Text

  datatype Predicate = P1 | P2 | P3 | P4 | P5

  /** A hit of the sweep; `rule` is the predicate it met. */
  datatype SurfaceHit = SurfaceHit(path: string, line: nat, rule: Predicate, text: string)

  /** A manifest entry; `ac` may be missing, and any classification may have been written. */
  datatype SurfaceEntry = SurfaceEntry(path: string, line: nat, rule: Predicate, symbol: string,
                                       reachableRoute: Option<string>, classification: string, ac: Option<string>)

  const CLASSIFICATIONS: seq<string> := ["gate", "must-remain-functional", "bespoke", "non-runtime", "test-only"]

  // ----- keys -----

  function PredicateName(p: Predicate): (s: string)
    ensures |s| == 2
  {
    match p
    case P1 => "P1"
    case P2 => "P2"
    case P3 => "P3"
    case P4 => "P4"
    case P5 => "P5"
  }

  function EntryKey(path: string, line: nat, rule: Predicate): string {
    path + ":" + Decimal(line) + ":" + PredicateName(rule)
  }

  function GroupKey(path: string, rule: Predicate): string { path + ":::" + PredicateName(rule) }

  function KeyOfHit(h: SurfaceHit): string { EntryKey(h.path, h.line, h.rule) }

  function KeyOfEntry(e: SurfaceEntry): string { EntryKey(e.path, e.line, e.rule) }

  function GroupOfHit(h: SurfaceHit): string { GroupKey(h.path, h.rule) }

  function GroupOfEntry(e: SurfaceEntry): string { GroupKey(e.path, e.rule) }

  lemma PredicateNameInjective(p: Predicate, q: Predicate)
    requires PredicateName(p) == PredicateName(q)
    ensures p == q
  {
    assert PredicateName(p)[1] == PredicateName(q)[1];
  }

  /** An entry key names one path, line and predicate. */
  lemma EntryKeyInjective(p: string, m: nat, x: Predicate, q: string, n: nat, y: Predicate)
    ensures EntryKey(p, m, x) == EntryKey(q, n, y) <==> p == q && m == n && x == y
  {
    if EntryKey(p, m, x) == EntryKey(q, n, y) {
      SplitAtEnd(p + ":" + Decimal(m) + ":", PredicateName(x), q + ":" + Decimal(n) + ":", PredicateName(y));
      PredicateNameInjective(x, y);
      SplitAtEnd(p + ":" + Decimal(m), ":", q + ":" + Decimal(n), ":");
      LastSeparator(p, Decimal(m), q, Decimal(n), ':');
      NumberOfDecimal(m);
      NumberOfDecimal(n);
    }
  }

  /** A group key names one path and predicate. */
  lemma GroupKeyInjective(p: string, x: Predicate, q: string, y: Predicate)
    ensures GroupKey(p, x) == GroupKey(q, y) <==> p == q && x == y
  {
    if GroupKey(p, x) == GroupKey(q, y) {
      SplitAtEnd(p + ":::", PredicateName(x), q + ":::", PredicateName(y));
      PredicateNameInjective(x, y);
      SplitAtEnd(p, ":::", q, ":::");
    }
  }

  // ----- the diff -----

  datatype Failure =
    | Unlisted(hit: SurfaceHit)
    | DeadEntry(entry: SurfaceEntry)
    | MissingAc(entry: SurfaceEntry)
    | UnknownClassification(entry: SurfaceEntry)
    | UngatedGateEntry(entry: SurfaceEntry)

  predicate IsListed(h: SurfaceHit, manifest: seq<SurfaceEntry>) {
    exists e | e in manifest :: KeyOfEntry(e) == KeyOfHit(h)
  }

  predicate IsAlive(e: SurfaceEntry, hits: seq<SurfaceHit>) {
    exists h | h in hits :: KeyOfHit(h) == KeyOfEntry(e)
  }

  predicate HasAc(e: SurfaceEntry) { e.ac.Some? && Trim(e.ac.value) != "" }

  predicate IsGatedIfGate(gated: string -> bool, e: SurfaceEntry) { e.classification == "gate" ==> gated(e.path) }

  /** Nothing is wrong with the entry itself, wherever it points. */
  predicate IsSound(gated: string -> bool, e: SurfaceEntry) {
    HasAc(e) && e.classification in CLASSIFICATIONS && IsGatedIfGate(gated, e)
  }

  function HitFailures(hits: seq<SurfaceHit>, manifest: seq<SurfaceEntry>): seq<Failure> {
    if hits == [] then []
    else
      var h := hits[|hits| - 1];
      HitFailures(hits[..|hits| - 1], manifest) + if IsListed(h, manifest) then [] else [Unlisted(h)]
  }

  function FailuresOfEntry(gated: string -> bool, hits: seq<SurfaceHit>, e: SurfaceEntry): seq<Failure> {
    if !IsAlive(e, hits) then [DeadEntry(e)]
    else
      (if HasAc(e) then [] else [MissingAc(e)])
      + (if e.classification in CLASSIFICATIONS then [] else [UnknownClassification(e)])
      + (if IsGatedIfGate(gated, e) then [] else [UngatedGateEntry(e)])
  }

  function EntryFailures(gated: string -> bool, hits: seq<SurfaceHit>, manifest: seq<SurfaceEntry>): seq<Failure> {
    if manifest == [] then []
    else
      EntryFailures(gated, hits, manifest[..|manifest| - 1])
      + FailuresOfEntry(gated, hits, manifest[|manifest| - 1])
  }

  lemma OneMoreHit(hits: seq<SurfaceHit>, manifest: seq<SurfaceEntry>, n: nat)
    requires n < |hits|
    ensures HitFailures(hits[..n + 1], manifest) ==
            HitFailures(hits[..n], manifest) + if IsListed(hits[n], manifest) then [] else [Unlisted(hits[n])]
  {
    hide IsListed;
    assert hits[..n + 1][..n] == hits[..n];
  }

  lemma OneMoreEntry(gated: string -> bool, hits: seq<SurfaceHit>, manifest: seq<SurfaceEntry>, n: nat)
    requires n < |manifest|
    ensures EntryFailures(gated, hits, manifest[..n + 1]) ==
            EntryFailures(gated, hits, manifest[..n]) + FailuresOfEntry(gated, hits, manifest[n])
  {
    hide FailuresOfEntry;
    assert manifest[..n + 1][..n] == manifest[..n];
  }

  lemma NothingFails(gated: string -> bool, hits: seq<SurfaceHit>, manifest: seq<SurfaceEntry>)
    ensures HitFailures(hits[..0], manifest) == [] && EntryFailures(gated, hits, manifest[..0]) == []
  {
  }

  /** The checks on one entry; a dead entry is not looked at further. */
  method CheckEntry(gated: string -> bool, hits: seq<SurfaceHit>, hitKeys: set<string>, entry: SurfaceEntry)
    returns (failures: seq<Failure>)
    requires hitKeys == set h | h in hits :: KeyOfHit(h)
    ensures failures == FailuresOfEntry(gated, hits, entry)
  {
    hide EntryKey, Trim;
    if KeyOfEntry(entry) !in hitKeys {
      return [DeadEntry(entry)];
    }
    failures := [];
    if entry.ac.None? || Trim(entry.ac.value) == "" {
      failures := failures + [MissingAc(entry)];
    }
    if entry.classification !in CLASSIFICATIONS {
      failures := failures + [UnknownClassification(entry)];
    }
    if entry.classification == "gate" && !gated(entry.path) {
      failures := failures + [UngatedGateEntry(entry)];
    }
  }

  /** `diffManifestAgainstHits`; `gated` says which files wire the login gate. */
  method DiffManifestAgainstHits(gated: string -> bool, hits: seq<SurfaceHit>, manifest: seq<SurfaceEntry>)
    returns (failures: seq<Failure>)
    ensures failures == HitFailures(hits, manifest) + EntryFailures(gated, hits, manifest)
  {
    hide EntryKey, HitFailures, EntryFailures, FailuresOfEntry;
    var hitKeys := set h | h in hits :: KeyOfHit(h);
    var manifestKeys := set e | e in manifest :: KeyOfEntry(e);
    failures := [];
    NothingFails(gated, hits, manifest);
    for k := 0 to |hits|
      invariant failures == HitFailures(hits[..k], manifest)
    {
      OneMoreHit(hits, manifest, k);
      if KeyOfHit(hits[k]) !in manifestKeys {
        failures := failures + [Unlisted(hits[k])];
      }
    }
    assert hits[..|hits|] == hits;
    ghost var unlisted := failures;
    for k := 0 to |manifest|
      invariant failures == unlisted + EntryFailures(gated, hits, manifest[..k])
    {
      OneMoreEntry(gated, hits, manifest, k);
      var own := CheckEntry(gated, hits, hitKeys, manifest[k]);
      failures := failures + own;
    }
    assert manifest[..|manifest|] == manifest;
  }

  function GroupOfFailure(f: Failure): string {
    if f.Unlisted? then GroupOfHit(f.hit) else GroupOfEntry(f.entry)
  }

  /** What makes a group fail: an unlisted hit of it, or a dead or unsound entry of it. */
  ghost predicate GroupFails(gated: string -> bool, hits: seq<SurfaceHit>, manifest: seq<SurfaceEntry>, key: string) {
    || (exists h | h in hits :: GroupOfHit(h) == key && !IsListed(h, manifest))
    || (exists e | e in manifest :: GroupOfEntry(e) == key && !(IsAlive(e, hits) && IsSound(gated, e)))
  }

  lemma {:induction false} HitFailuresOf(hits: seq<SurfaceHit>, manifest: seq<SurfaceEntry>, key: string)
    ensures (exists f | f in HitFailures(hits, manifest) :: GroupOfFailure(f) == key) <==>
            exists h | h in hits :: GroupOfHit(h) == key && !IsListed(h, manifest)
  {
    hide IsListed, GroupKey;
    if hits != [] {
      var (front, h) := (hits[..|hits| - 1], hits[|hits| - 1]);
      HitFailuresOf(front, manifest, key);
      assert hits == front + [h];
      assert !IsListed(h, manifest) ==> Unlisted(h) in HitFailures(hits, manifest);
    }
  }

  lemma FailuresOfOne(gated: string -> bool, hits: seq<SurfaceHit>, e: SurfaceEntry)
    ensures FailuresOfEntry(gated, hits, e) == [] <==> IsAlive(e, hits) && IsSound(gated, e)
    ensures forall f | f in FailuresOfEntry(gated, hits, e) :: GroupOfFailure(f) == GroupOfEntry(e)
  {
    hide IsAlive, GroupKey, HasAc;
  }

  lemma {:induction false} EntryFailuresOf(gated: string -> bool, hits: seq<SurfaceHit>, manifest: seq<SurfaceEntry>,
                                           key: string)
    ensures (exists f | f in EntryFailures(gated, hits, manifest) :: GroupOfFailure(f) == key) <==>
            exists e | e in manifest :: GroupOfEntry(e) == key && !(IsAlive(e, hits) && IsSound(gated, e))
  {
    hide IsAlive, IsSound, GroupKey, FailuresOfEntry;
    if manifest != [] {
      var (front, e) := (manifest[..|manifest| - 1], manifest[|manifest| - 1]);
      EntryFailuresOf(gated, hits, front, key);
      FailuresOfOne(gated, hits, e);
      var own := FailuresOfEntry(gated, hits, e);
      assert manifest == front + [e];
      assert own != [] ==> own[0] in EntryFailures(gated, hits, manifest);
      assert own != [] ==> GroupOfFailure(own[0]) == GroupOfEntry(e);
    }
  }

  /** A group has a failure in the diff exactly when one of its own hits or entries is at fault. */
  lemma {:induction false} DiffFails(gated: string -> bool, hits: seq<SurfaceHit>, manifest: seq<SurfaceEntry>, key: string)
    ensures (exists f | f in HitFailures(hits, manifest) + EntryFailures(gated, hits, manifest) ::
               GroupOfFailure(f) == key)
            <==> GroupFails(gated, hits, manifest, key)
  {
    hide IsAlive, IsSound, IsListed, GroupKey, GroupOfFailure;
    HitFailuresOf(hits, manifest, key);
    EntryFailuresOf(gated, hits, manifest, key);
    var a, b := HitFailures(hits, manifest), EntryFailures(gated, hits, manifest);
    assert forall f :: f in a + b <==> f in a || f in b;
  }

  function InGroup<T(!new)>(items: seq<T>, groupOf: T -> string, key: string): (own: seq<T>)
    ensures forall x :: x in own <==> x in items && groupOf(x) == key
  {
    if items == [] then []
    else
      InGroup(items[..|items| - 1], groupOf, key)
      + if groupOf(items[|items| - 1]) == key then [items[|items| - 1]] else []
  }

  lemma SameGroup(h: SurfaceHit, e: SurfaceEntry)
    requires KeyOfHit(h) == KeyOfEntry(e)
    ensures GroupOfHit(h) == GroupOfEntry(e)
  {
    EntryKeyInjective(h.path, h.line, h.rule, e.path, e.line, e.rule);
  }

  /** Failures are local: whether a group fails depends on that group's hits and entries alone. */
  lemma {:induction false} FailuresAreLocal(gated: string -> bool, hits: seq<SurfaceHit>, manifest: seq<SurfaceEntry>, key: string)
    ensures GroupFails(gated, hits, manifest, key) <==>
            GroupFails(gated, InGroup(hits, GroupOfHit, key), InGroup(manifest, GroupOfEntry, key), key)
  {
    hide EntryKey, GroupKey, IsSound;
    forall h: SurfaceHit, e: SurfaceEntry | KeyOfHit(h) == KeyOfEntry(e)
      ensures GroupOfHit(h) == GroupOfEntry(e)
    {
      SameGroup(h, e);
    }
  }
}
