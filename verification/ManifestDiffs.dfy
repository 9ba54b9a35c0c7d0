/** What the diff of manifest and hits reports, failure by failure. */
module ManifestDiffs {
  import opened SurfaceManifest
  import opened Text

  predicate SamePlace(e: SurfaceEntry, h: SurfaceHit) { e.path == h.path && e.line == h.line && e.rule == h.rule }

  predicate PointsAtHit(e: SurfaceEntry, hits: seq<SurfaceHit>) { exists h | h in hits :: SamePlace(e, h) }

  predicate IsPointedAt(h: SurfaceHit, manifest: seq<SurfaceEntry>) { exists e | e in manifest :: SamePlace(e, h) }

  /** What an entry must say about itself. */
  predicate SaysEnough(gated: string -> bool, e: SurfaceEntry) {
    && e.ac.Some? && !IsBlankText(e.ac.value)
    && (e.classification == "gate" || e.classification == "must-remain-functional" || e.classification == "bespoke"
        || e.classification == "non-runtime" || e.classification == "test-only")
    && (e.classification == "gate" ==> gated(e.path))
  }

  /** The faults the diff reports: a hit nobody lists; an entry that points at no hit; and of the others those
      without a criterion, with an unheard-of class, or called a gate in a file that wires none. */
  predicate IsFault(gated: string -> bool, hits: seq<SurfaceHit>, manifest: seq<SurfaceEntry>, f: Failure) {
    match f
    case Unlisted(h) => h in hits && !IsPointedAt(h, manifest)
    case DeadEntry(e) => e in manifest && !PointsAtHit(e, hits)
    case MissingAc(e) => e in manifest && PointsAtHit(e, hits) && (e.ac.None? || IsBlankText(e.ac.value))
    case UnknownClassification(e) =>
      && e in manifest && PointsAtHit(e, hits)
      && e.classification != "gate" && e.classification != "must-remain-functional" && e.classification != "bespoke"
      && e.classification != "non-runtime" && e.classification != "test-only"
    case UngatedGateEntry(e) => e in manifest && PointsAtHit(e, hits) && e.classification == "gate" && !gated(e.path)
  }

  lemma PlaceIsKey(e: SurfaceEntry, h: SurfaceHit)
    ensures SamePlace(e, h) <==> KeyOfEntry(e) == KeyOfHit(h)
  {
    EntryKeyInjective(e.path, e.line, e.rule, h.path, h.line, h.rule);
  }

  lemma AliveExactly(e: SurfaceEntry, hits: seq<SurfaceHit>)
    ensures IsAlive(e, hits) <==> PointsAtHit(e, hits)
  {
    hide EntryKey;
    forall h | h in hits
      ensures SamePlace(e, h) <==> KeyOfEntry(e) == KeyOfHit(h)
    {
      PlaceIsKey(e, h);
    }
  }

  lemma ListedExactly(h: SurfaceHit, manifest: seq<SurfaceEntry>)
    ensures IsListed(h, manifest) <==> IsPointedAt(h, manifest)
  {
    hide EntryKey;
    forall e | e in manifest
      ensures SamePlace(e, h) <==> KeyOfEntry(e) == KeyOfHit(h)
    {
      PlaceIsKey(e, h);
    }
  }

  lemma HasAcExactly(e: SurfaceEntry)
    ensures HasAc(e) <==> e.ac.Some? && !IsBlankText(e.ac.value)
  {
    if e.ac.Some? {
      TrimEmpty(e.ac.value);
    }
  }

  lemma SoundExactly(gated: string -> bool, e: SurfaceEntry)
    ensures IsSound(gated, e) <==> SaysEnough(gated, e)
  {
    hide HasAc;
    HasAcExactly(e);
  }

  lemma {:induction false} HitFailuresAre(hits: seq<SurfaceHit>, manifest: seq<SurfaceEntry>, f: Failure)
    ensures f in HitFailures(hits, manifest) <==> f.Unlisted? && f.hit in hits && !IsListed(f.hit, manifest)
  {
    hide IsListed;
    if hits != [] {
      HitFailuresAre(hits[..|hits| - 1], manifest, f);
      assert hits == hits[..|hits| - 1] + [hits[|hits| - 1]];
    }
  }

  lemma FaultsOfOne(gated: string -> bool, hits: seq<SurfaceHit>, e: SurfaceEntry, f: Failure)
    ensures f in FailuresOfEntry(gated, hits, e) <==> !f.Unlisted? && f.entry == e && IsFault(gated, hits, [e], f)
  {
    hide IsAlive, HasAc, PointsAtHit;
    AliveExactly(e, hits);
    HasAcExactly(e);
  }

  lemma {:induction false} EntryFailuresAre(gated: string -> bool, hits: seq<SurfaceHit>, manifest: seq<SurfaceEntry>,
                                            f: Failure)
    ensures f in EntryFailures(gated, hits, manifest) <==>
            !f.Unlisted? && f.entry in manifest && f in FailuresOfEntry(gated, hits, f.entry)
  {
    hide FailuresOfEntry;
    if manifest != [] {
      var (front, e) := (manifest[..|manifest| - 1], manifest[|manifest| - 1]);
      EntryFailuresAre(gated, hits, front, f);
      assert manifest == front + [e];
      if f in FailuresOfEntry(gated, hits, e) {
        FaultsOfOne(gated, hits, e, f);
      }
    }
  }

  /** The diff reports those faults and nothing else. */
  lemma DiffExactly(gated: string -> bool, hits: seq<SurfaceHit>, manifest: seq<SurfaceEntry>, f: Failure)
    ensures f in HitFailures(hits, manifest) + EntryFailures(gated, hits, manifest) <==> IsFault(gated, hits, manifest, f)
  {
    hide FailuresOfEntry, IsListed, PointsAtHit, IsPointedAt, HitFailures, EntryFailures;
    HitFailuresAre(hits, manifest, f);
    EntryFailuresAre(gated, hits, manifest, f);
    if f.Unlisted? {
      ListedExactly(f.hit, manifest);
    } else {
      FaultsOfOne(gated, hits, f.entry, f);
    }
  }
}
