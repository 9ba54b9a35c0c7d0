/** Why a regenerated manifest may put an entry on another line. */
module LineMoves {
  import opened GroupMatching
  import opened ManifestDiffs
  import opened MatchingRules
  import opened RegenerateLaws
  import opened SurfaceManifest
  import opened SurfaceRegenerate
  import opened Text

  /** On `line` is a hit of the entry's group that was there before, or bears the entry's symbol. */
  ghost predicate OnOwnHit(e: SurfaceEntry, line: nat, hits: seq<SurfaceHit>) {
    exists h | h in hits :: GroupOfHit(h) == GroupOfEntry(e) && h.line == line && (line == e.line || h.text == e.symbol)
  }

  /** On `line` is a hit of the entry's group whose text is the symbol but for white space around it, or the
      symbol says that it stands for no text. */
  ghost predicate OnLikelyHit(e: SurfaceEntry, line: nat, hits: seq<SurfaceHit>) {
    exists h | h in hits ::
      && GroupOfHit(h) == GroupOfEntry(e) && h.line == line
      && (Trim(e.symbol) == "(see comment context)" || Trim(e.symbol) == Trim(h.text))
  }

  /** The claim that places entry `i` of a clean group. */
  lemma PlacedBy(gated: string -> bool, manifest: seq<SurfaceEntry>, hits: seq<SurfaceHit>, i: nat) returns (k: nat)
    requires i < |manifest| && Clean(gated, manifest, hits, GroupOfEntry(manifest[i]))
    ensures var key := GroupOfEntry(manifest[i]);
            var (entries, own) := (Entries(manifest, key), Hits(hits, key));
            && k < |Matching(entries, own)|
            && var c := Matching(entries, own)[k];
            && c.entry < |entries| && c.hit < |own| && entries[c.entry] == IndexedEntry(i, manifest[i])
            && own[c.hit] in hits && GroupOfHit(own[c.hit]) == key
            && own[c.hit].line == Rewritten(gated, manifest, hits)[i].line
  {
    hide Rewritten, GroupKey, Verified, Candidate, IsAlive, Hits, Matching, GroupUpdates, SizeMatched, Entries, Matched;
    var key := GroupOfEntry(manifest[i]);
    var (entries, own) := (Entries(manifest, key), Hits(hits, key));
    var j := PlaceInGroup(manifest, i);
    BijectionOf(manifest, hits, key);
    k := ClaimOf(Matching(entries, own), j);
    ClaimLine(manifest, hits, key, k);
    OnlyCleanLinesChange(gated, manifest, hits, i);
    CandidateAt(manifest, hits, i);
    HitsAre(hits, key);
  }

  lemma {:induction false} OrdinalListed(updates: seq<LineUpdate>, k: nat)
    requires k < |updates| && updates[k].viaOrdinalFallback
    ensures updates[k] in Ordinals(updates)
  {
    if k < |updates| - 1 {
      OrdinalListed(updates[..|updates| - 1], k);
    }
  }

  lemma {:induction false} TwoOrdinals(updates: seq<LineUpdate>, k: nat, l: nat)
    requires k < l < |updates| && updates[k].viaOrdinalFallback && updates[l].viaOrdinalFallback
    ensures |Ordinals(updates)| >= 2
  {
    if l < |updates| - 1 {
      TwoOrdinals(updates[..|updates| - 1], k, l);
    } else {
      OrdinalListed(updates[..l], k);
    }
  }

  /** A claim not made by order is of a hit on the entry's line, or of one that bears its symbol. */
  lemma ClaimedByRule(entries: seq<IndexedEntry>, hits: seq<SurfaceHit>, k: nat)
    requires k < |Matching(entries, hits)| && !Matching(entries, hits)[k].viaOrdinal
    ensures var c := Matching(entries, hits)[k];
            && c.entry < |entries| && c.hit < |hits|
            && (hits[c.hit].line == entries[c.entry].entry.line || hits[c.hit].text == entries[c.entry].entry.symbol)
  {
    hide Matching, EntryLeft, HitLeft;
    var l, t := MatchedByRules(entries, hits);
  }

  /** A moved entry of a written group lands on a hit that bears its symbol, or nearly, unless it is the one
      entry of its group that neither its line nor its symbol placed. */
  lemma MovesAreJustified(gated: string -> bool, manifest: seq<SurfaceEntry>, hits: seq<SurfaceHit>, i: nat)
    requires i < |manifest|
    ensures var after := Rewritten(gated, manifest, hits);
            || after[i].line == manifest[i].line
            || OnOwnHit(manifest[i], after[i].line, hits)
            || OnLikelyHit(manifest[i], after[i].line, hits)
            || (forall j | 0 <= j < |manifest| && j != i && GroupOfEntry(manifest[j]) == GroupOfEntry(manifest[i]) ::
                  OnOwnHit(manifest[j], after[j].line, hits))
  {
    hide Rewritten, GroupKey, Clean, Hits, Matching, Entries, Trim, IsAlive, Candidate;
    var (key, after) := (GroupOfEntry(manifest[i]), Rewritten(gated, manifest, hits));
    if !Clean(gated, manifest, hits, key) {
      OnlyCleanLinesChange(gated, manifest, hits, i);
    } else {
      var k := PlacedBy(gated, manifest, hits, i);
      var (entries, own) := (Entries(manifest, key), Hits(hits, key));
      if !Matching(entries, own)[k].viaOrdinal {
        ClaimedByRule(entries, own, k);
      } else if !OnLikelyHit(manifest[i], after[i].line, hits) {
        forall j | 0 <= j < |manifest| && j != i && GroupOfEntry(manifest[j]) == key
          ensures OnOwnHit(manifest[j], after[j].line, hits)
        {
          var m := PlacedBy(gated, manifest, hits, j);
          OneDoubtful(gated, manifest, hits, key, k, m);
          ClaimedByRule(entries, own, m);
        }
      }
    }
  }

  /** In a written group a pair made by order that joins a symbol to another text is the only pair made so. */
  lemma OneDoubtful(gated: string -> bool, manifest: seq<SurfaceEntry>, hits: seq<SurfaceHit>, key: string, k: nat, m: nat)
    requires Clean(gated, manifest, hits, key)
    requires var claims := Matching(Entries(manifest, key), Hits(hits, key));
             k < |claims| && m < |claims| && k != m && claims[k].viaOrdinal
    requires var c := Matching(Entries(manifest, key), Hits(hits, key))[k];
             c.entry < |Entries(manifest, key)| && c.hit < |Hits(hits, key)|
             && var symbol := Trim(Entries(manifest, key)[c.entry].entry.symbol);
                symbol != "(see comment context)" && symbol != Trim(Hits(hits, key)[c.hit].text)
    ensures !Matching(Entries(manifest, key), Hits(hits, key))[m].viaOrdinal
  {
    hide SizeMatched, GroupFails, Hits, Entries, Matching, Trim, GroupKey, Updates, Clean;
    CleanExactly(gated, manifest, hits, key);
    var updates := GroupUpdates(manifest, hits, key);
    UpdatesTell(Entries(manifest, key), Hits(hits, key), k);
    UpdatesTell(Entries(manifest, key), Hits(hits, key), m);
    OrdinalListed(updates, k);
    assert IsMispaired(updates[k]);
    if updates[m].viaOrdinalFallback {
      TwoOrdinals(updates, if k < m then k else m, if k < m then m else k);
    }
  }

  /** Two pairs or more were made by order, and one of them joins a symbol that stands for a text to another. */
  ghost predicate IsDoubtful(entries: seq<IndexedEntry>, hits: seq<SurfaceHit>, claims: seq<Claim>)
    requires forall k | 0 <= k < |claims| :: claims[k].entry < |entries| && claims[k].hit < |hits|
  {
    && (exists k, m | 0 <= k < m < |claims| :: claims[k].viaOrdinal && claims[m].viaOrdinal)
    && (exists k | 0 <= k < |claims| :: claims[k].viaOrdinal
          && Trim(entries[claims[k].entry].entry.symbol) != "(see comment context)"
          && Trim(entries[claims[k].entry].entry.symbol) != Trim(hits[claims[k].hit].text))
  }

  lemma {:induction false} OrdinalsAre(updates: seq<LineUpdate>)
    ensures forall u | u in Ordinals(updates) :: u in updates && u.viaOrdinalFallback
    ensures |Ordinals(updates)| >= 2 ==>
              exists k, m | 0 <= k < m < |updates| :: updates[k].viaOrdinalFallback && updates[m].viaOrdinalFallback
  {
    if updates != [] {
      var (front, last) := (updates[..|updates| - 1], updates[|updates| - 1]);
      OrdinalsAre(front);
      if |Ordinals(updates)| >= 2 && |Ordinals(front)| == 1 {
        var u := Ordinals(front)[0];
        assert u in front;
        var k :| 0 <= k < |front| && front[k] == u;
        assert updates[k] == u && updates[|front|] == last;
      } else if |Ordinals(updates)| >= 2 {
        var k, m :| 0 <= k < m < |front| && front[k].viaOrdinalFallback && front[m].viaOrdinalFallback;
        assert updates[k] == front[k] && updates[m] == front[m];
      }
    }
  }

  /** The updates say what the claims do, and the ordinal ones are listed. */
  ghost predicate Told(entries: seq<IndexedEntry>, hits: seq<SurfaceHit>, claims: seq<Claim>, updates: seq<LineUpdate>)
    requires forall k | 0 <= k < |claims| :: claims[k].entry < |entries| && claims[k].hit < |hits|
  {
    && |updates| == |claims|
    && (forall k | 0 <= k < |claims| ::
          && updates[k].viaOrdinalFallback == claims[k].viaOrdinal
          && updates[k].entrySymbol == entries[claims[k].entry].entry.symbol
          && updates[k].hitText == hits[claims[k].hit].text
          && (claims[k].viaOrdinal ==> updates[k] in Ordinals(updates)))
  }

  lemma UpdatesTold(entries: seq<IndexedEntry>, hits: seq<SurfaceHit>)
    ensures forall k | 0 <= k < |Matching(entries, hits)| ::
              Matching(entries, hits)[k].entry < |entries| && Matching(entries, hits)[k].hit < |hits|
    ensures Told(entries, hits, Matching(entries, hits), Updates(entries, hits))
  {
    hide Matching, Ordinals, Updates;
    InRange(entries, hits);
    UpdateCount(entries, hits);
    var (claims, updates) := (Matching(entries, hits), Updates(entries, hits));
    forall k | 0 <= k < |claims|
      ensures updates[k].viaOrdinalFallback == claims[k].viaOrdinal
      ensures updates[k].entrySymbol == entries[claims[k].entry].entry.symbol
      ensures updates[k].hitText == hits[claims[k].hit].text
      ensures claims[k].viaOrdinal ==> updates[k] in Ordinals(updates)
    {
      UpdatesTell(entries, hits, k);
      if claims[k].viaOrdinal {
        OrdinalListed(updates, k);
      }
    }
  }

  lemma DoubtIsMispair(entries: seq<IndexedEntry>, hits: seq<SurfaceHit>, claims: seq<Claim>, updates: seq<LineUpdate>)
    requires forall k | 0 <= k < |claims| :: claims[k].entry < |entries| && claims[k].hit < |hits|
    requires Told(entries, hits, claims, updates) && IsDoubtful(entries, hits, claims)
    ensures HasMispair(updates)
  {
    hide Ordinals, Trim;
    var k, m :| 0 <= k < m < |claims| && claims[k].viaOrdinal && claims[m].viaOrdinal;
    TwoOrdinals(updates, k, m);
  }

  lemma MispairIsDoubt(entries: seq<IndexedEntry>, hits: seq<SurfaceHit>, claims: seq<Claim>, updates: seq<LineUpdate>)
    requires forall k | 0 <= k < |claims| :: claims[k].entry < |entries| && claims[k].hit < |hits|
    requires Told(entries, hits, claims, updates) && HasMispair(updates)
    ensures IsDoubtful(entries, hits, claims)
  {
    hide Ordinals, Trim;
    OrdinalsAre(updates);
    var k, m :| 0 <= k < m < |updates| && updates[k].viaOrdinalFallback && updates[m].viaOrdinalFallback;
    assert claims[k].viaOrdinal && claims[m].viaOrdinal;
    var u :| u in Ordinals(updates) && IsMispaired(u);
    var n :| 0 <= n < |updates| && updates[n] == u;
    assert claims[n].viaOrdinal;
  }

  lemma DoubtfulExactly(entries: seq<IndexedEntry>, hits: seq<SurfaceHit>)
    ensures forall k | 0 <= k < |Matching(entries, hits)| ::
              Matching(entries, hits)[k].entry < |entries| && Matching(entries, hits)[k].hit < |hits|
    ensures HasMispair(Updates(entries, hits)) <==> IsDoubtful(entries, hits, Matching(entries, hits))
  {
    hide Matching, HasMispair, IsDoubtful, Updates, Told;
    UpdatesTold(entries, hits);
    if HasMispair(Updates(entries, hits)) {
      MispairIsDoubt(entries, hits, Matching(entries, hits), Updates(entries, hits));
    }
    if IsDoubtful(entries, hits, Matching(entries, hits)) {
      DoubtIsMispair(entries, hits, Matching(entries, hits), Updates(entries, hits));
    }
  }

  lemma UpdateCount(entries: seq<IndexedEntry>, hits: seq<SurfaceHit>)
    ensures |Updates(entries, hits)| == |Matching(entries, hits)|
  {
  }

  /** Exactly which groups are written: those with as many entries as hits, whose entries all say enough about
      themselves, and whose pairing leaves no doubt. */
  lemma WrittenExactly(gated: string -> bool, manifest: seq<SurfaceEntry>, hits: seq<SurfaceHit>, key: string)
    ensures var (entries, own) := (Entries(manifest, key), Hits(hits, key));
            && (forall k | 0 <= k < |Matching(entries, own)| ::
                  Matching(entries, own)[k].entry < |entries| && Matching(entries, own)[k].hit < |own|)
            && (Clean(gated, manifest, hits, key) <==>
                  && |entries| == |own| && !IsDoubtful(entries, own, Matching(entries, own))
                  && forall e | e in manifest && GroupOfEntry(e) == key :: SaysEnough(gated, e))
  {
    hide Clean, Matching, IsDoubtful, Entries, Hits, HasMispair, Updates, IsSound, SaysEnough, GroupKey;
    CleanExactly(gated, manifest, hits, key);
    DoubtfulExactly(Entries(manifest, key), Hits(hits, key));
    forall e | e in manifest
      ensures IsSound(gated, e) <==> SaysEnough(gated, e)
    {
      SoundExactly(gated, e);
    }
  }

  // ----- the unresolved groups -----

  lemma OneMoreKey(keys: seq<string>, x: string, keep: string -> bool)
    ensures Filtered(keys + [x], keep) == Filtered(keys, keep) + if keep(x) then [x] else []
  {
    assert (keys + [x])[..|keys|] == keys;
  }

  lemma {:induction false} CountedTwice(keys: seq<string>, matched: string -> bool, verified: string -> bool,
                                        mismatched: string -> bool, left: string -> bool)
    requires forall key | key in keys :: mismatched(key) == !matched(key) && left(key) == !(matched(key) && verified(key))
    ensures |Filtered(keys, left)| ==
            |Filtered(keys, mismatched)| + |Filtered(keys, matched)| - |Filtered(Filtered(keys, matched), verified)|
  {
    if keys != [] {
      var (front, x) := (keys[..|keys| - 1], keys[|keys| - 1]);
      CountedTwice(front, matched, verified, mismatched, left);
      assert keys == front + [x];
      OneMoreKey(Filtered(front, matched), x, verified);
      assert !matched(x) ==> Filtered(keys, matched) == Filtered(front, matched);
    }
  }

  lemma {:induction false} CountedOnce(keys: seq<string>)
    requires NoRepeats(keys)
    ensures |set key | key in keys| == |keys|
  {
    if keys != [] {
      var (front, x) := (keys[..|keys| - 1], keys[|keys| - 1]);
      CountedOnce(front);
      assert keys == front + [x];
      assert (set key | key in keys) == (set key | key in front) + {x};
    }
  }

  /** The keys of all groups of manifest and hits that are not written. */
  ghost function LeftKeys(gated: string -> bool, manifest: seq<SurfaceEntry>, hits: seq<SurfaceHit>): set<string> {
    (set e | e in manifest && !Clean(gated, manifest, hits, GroupOfEntry(e)) :: GroupOfEntry(e))
    + (set h | h in hits && !Clean(gated, manifest, hits, GroupOfHit(h)) :: GroupOfHit(h))
  }

  lemma AllKeysAre(manifest: seq<SurfaceEntry>, hits: seq<SurfaceHit>)
    ensures NoRepeats(AllKeys(manifest, hits))
    ensures forall key :: key in AllKeys(manifest, hits) <==>
                          (exists e | e in manifest :: GroupOfEntry(e) == key) || (exists h | h in hits :: GroupOfHit(h) == key)
  {
    hide KeysAfter, GroupKey;
    KeysAre([], EntryGroups(manifest));
    KeysAre([], HitGroups(hits));
    KeysAre(KeysAfter([], EntryGroups(manifest)), KeysAfter([], HitGroups(hits)));
    KeysOnce([], EntryGroups(manifest));
    KeysOnce(KeysAfter([], EntryGroups(manifest)), KeysAfter([], HitGroups(hits)));
    forall key
      ensures key in EntryGroups(manifest) <==> exists e | e in manifest :: GroupOfEntry(e) == key
      ensures key in HitGroups(hits) <==> exists h | h in hits :: GroupOfHit(h) == key
    {
      if i :| 0 <= i < |manifest| && GroupOfEntry(manifest[i]) == key {
        assert EntryGroups(manifest)[i] == key;
      }
      if i :| 0 <= i < |hits| && GroupOfHit(hits[i]) == key {
        assert HitGroups(hits)[i] == key;
      }
    }
  }

  /** A listed key whose group has as many entries as hits has an entry. */
  lemma MatchedIfEqual(manifest: seq<SurfaceEntry>, hits: seq<SurfaceHit>, key: string)
    requires key in AllKeys(manifest, hits) && SizeMatched(manifest, hits, key)
    ensures Entries(manifest, key) != []
  {
    hide GroupKey, Hits;
    AllKeysAre(manifest, hits);
    HitsAre(hits, key);
    if e :| e in manifest && GroupOfEntry(e) == key {
      var i :| 0 <= i < |manifest| && manifest[i] == e;
      var j := PlaceInGroup(manifest, i);
    } else {
      var h :| h in hits && GroupOfHit(h) == key;
      assert h in Hits(hits, key);
    }
  }

  /** The number reported is that of the groups not written, each counted once. */
  lemma UnresolvedExactly(gated: string -> bool, manifest: seq<SurfaceEntry>, hits: seq<SurfaceHit>)
    ensures Regenerated(gated, manifest, hits).unresolvedGroupCount == |LeftKeys(gated, manifest, hits)|
  {
    hide SizeMatched, Verified, AllKeys, Entries, GroupKey, Filtered, ApplyLineUpdates, AllUpdates, ChangesOf, NoRepeats;
    var keys := AllKeys(manifest, hits);
    var left := (key: string) => !Clean(gated, manifest, hits, key);
    AllKeysAre(manifest, hits);
    forall key | key in keys
      ensures Mismatch(manifest, hits)(key) == !ToMatch(manifest, hits)(key)
    {
      if SizeMatched(manifest, hits, key) {
        MatchedIfEqual(manifest, hits, key);
      }
    }
    CountedTwice(keys, ToMatch(manifest, hits), IsVerified(gated, manifest, hits), Mismatch(manifest, hits), left);
    FilteredOnce(keys, left);
    FilteredAre(keys, left);
    CountedOnce(Filtered(keys, left));
    LeftKeysAre(gated, manifest, hits, Filtered(keys, left));
  }

  lemma LeftKeysAre(gated: string -> bool, manifest: seq<SurfaceEntry>, hits: seq<SurfaceHit>, keys: seq<string>)
    requires forall key :: key in keys <==> key in AllKeys(manifest, hits) && !Clean(gated, manifest, hits, key)
    ensures (set key | key in keys) == LeftKeys(gated, manifest, hits)
  {
    hide Clean, AllKeys, GroupKey, NoRepeats;
    AllKeysAre(manifest, hits);
  }
}
