/** What regeneration promises as a whole: the manifest keeps its order, its length and every field but
    `line`, changes only in clean groups, lists its changes exactly, and a second run on the result
    changes nothing and leaves as much unresolved. */
module RegenerateLaws {
  import opened Counting
  import opened GroupMatching
  import opened SurfaceManifest
  import opened SurfaceRegenerate
  import opened Text

  /** The group is written: of equal size, and verified. */
  ghost predicate Clean(gated: string -> bool, manifest: seq<SurfaceEntry>, hits: seq<SurfaceHit>, key: string) {
    SizeMatched(manifest, hits, key) && Verified(gated, manifest, hits, key)
  }

  ghost function Rewritten(gated: string -> bool, manifest: seq<SurfaceEntry>, hits: seq<SurfaceHit>): (r: seq<SurfaceEntry>)
    ensures |r| == |manifest|
  {
    Regenerated(gated, manifest, hits).manifest
  }

  /** Exactly when a group is written: as many entries as hits, every entry sound by itself, and no
      doubtful ordinal pairing. */
  lemma CleanExactly(gated: string -> bool, manifest: seq<SurfaceEntry>, hits: seq<SurfaceHit>, key: string)
    ensures Clean(gated, manifest, hits, key) <==>
            && SizeMatched(manifest, hits, key)
            && (forall e | e in manifest && GroupOfEntry(e) == key :: IsSound(gated, e))
            && !HasMispair(GroupUpdates(manifest, hits, key))
  {
    hide SizeMatched, GroupFails, HasMispair, GroupUpdates, GroupKey, IsSound;
    if SizeMatched(manifest, hits, key) {
      CandidateHasNoGap(gated, manifest, hits, key);
    }
  }

  /** Order, length and every field but `line` are kept; an entry outside a clean group keeps its line,
      one inside lands on a hit of its group. */
  lemma OnlyCleanLinesChange(gated: string -> bool, manifest: seq<SurfaceEntry>, hits: seq<SurfaceHit>, i: nat)
    requires i < |manifest|
    ensures var e := Rewritten(gated, manifest, hits)[i];
            && e == manifest[i].(line := e.line)
            && (if Clean(gated, manifest, hits, GroupOfEntry(manifest[i]))
                then IsAlive(e, hits) && e == Candidate(manifest, hits)[i] else e == manifest[i])
  {
    hide SizeMatched, Verified, GroupUpdates, GroupKey, EntryKey, Candidate, Regenerated;
    ResultAt(gated, manifest, hits, i);
    CandidateAt(manifest, hits, i);
    if Clean(gated, manifest, hits, GroupOfEntry(manifest[i])) {
      var h := LandsOnHit(manifest, hits, i);
    }
  }

  // ----- a second run -----

  /** Two manifests that differ in lines only. */
  ghost predicate SameButLines(a: seq<SurfaceEntry>, b: seq<SurfaceEntry>) {
    |a| == |b| && forall i | 0 <= i < |a| :: b[i] == a[i].(line := b[i].line)
  }

  lemma SameGroups(a: seq<SurfaceEntry>, b: seq<SurfaceEntry>)
    requires SameButLines(a, b)
    ensures EntryGroups(a) == EntryGroups(b)
  {
    hide GroupKey;
  }

  lemma {:induction false} FilteredAlike(keys: seq<string>, p: string -> bool, q: string -> bool)
    requires forall key | key in keys :: p(key) == q(key)
    ensures Filtered(keys, p) == Filtered(keys, q)
  {
    if keys != [] {
      FilteredAlike(keys[..|keys| - 1], p, q);
    }
  }

  lemma SameKeys(a: seq<SurfaceEntry>, b: seq<SurfaceEntry>, hits: seq<SurfaceHit>)
    requires EntryGroups(a) == EntryGroups(b)
    ensures AllKeys(a, hits) == AllKeys(b, hits)
    ensures forall key :: SizeMatched(a, hits, key) == SizeMatched(b, hits, key)
    ensures MatchedKeys(a, hits) == MatchedKeys(b, hits)
    ensures Filtered(AllKeys(a, hits), Mismatch(a, hits)) == Filtered(AllKeys(b, hits), Mismatch(b, hits))
  {
    hide Hits;
    FilteredAlike(AllKeys(a, hits), ToMatch(a, hits), ToMatch(b, hits));
    FilteredAlike(AllKeys(a, hits), Mismatch(a, hits), Mismatch(b, hits));
  }

  lemma RewrittenSame(gated: string -> bool, manifest: seq<SurfaceEntry>, hits: seq<SurfaceHit>)
    ensures SameButLines(manifest, Rewritten(gated, manifest, hits))
    ensures EntryGroups(Rewritten(gated, manifest, hits)) == EntryGroups(manifest)
  {
    hide Rewritten, GroupKey, Clean, Candidate, IsAlive;
    forall i | 0 <= i < |manifest|
      ensures Rewritten(gated, manifest, hits)[i] == manifest[i].(line := Rewritten(gated, manifest, hits)[i].line)
    {
      OnlyCleanLinesChange(gated, manifest, hits, i);
    }
    SameGroups(manifest, Rewritten(gated, manifest, hits));
  }

  /** A group that is not clean is met again as it was. */
  lemma UntouchedGroup(gated: string -> bool, manifest: seq<SurfaceEntry>, hits: seq<SurfaceHit>, key: string)
    requires !Clean(gated, manifest, hits, key)
    ensures Entries(Rewritten(gated, manifest, hits), key) == Entries(manifest, key)
  {
    hide Rewritten, GroupKey, Clean, Candidate, IsAlive;
    RewrittenSame(gated, manifest, hits);
    var indexes := IndexesOf(EntryGroups(manifest), key);
    forall k | 0 <= k < |indexes|
      ensures Rewritten(gated, manifest, hits)[indexes[k]] == manifest[indexes[k]]
    {
      OnlyCleanLinesChange(gated, manifest, hits, indexes[k]);
    }
  }

  /** Which claim is entry `j`'s. */
  ghost function ClaimNumber(claims: seq<Claim>, j: nat): (k: nat)
    requires Matched(claims, j)
    ensures k < |claims| && claims[k].entry == j
  {
    var k: nat :| k < |claims| && claims[k].entry == j;
    k
  }

  /** The line the rewritten entry `j` of a clean group is on. */
  lemma RewrittenLine(gated: string -> bool, manifest: seq<SurfaceEntry>, hits: seq<SurfaceHit>, key: string, k: nat)
    requires Clean(gated, manifest, hits, key) && k < |Matching(Entries(manifest, key), Hits(hits, key))|
    ensures var c := Matching(Entries(manifest, key), Hits(hits, key))[k];
            && c.entry < |Entries(manifest, key)| == |Entries(Rewritten(gated, manifest, hits), key)|
            && c.hit < |Hits(hits, key)|
            && Entries(Rewritten(gated, manifest, hits), key)[c.entry].entry.line == Hits(hits, key)[c.hit].line
  {
    hide Rewritten, GroupKey, Verified, Candidate, IsAlive, Hits, Matching, GroupUpdates, SizeMatched;
    ClaimLine(manifest, hits, key, k);
    RewrittenSame(gated, manifest, hits);
    var c := Matching(Entries(manifest, key), Hits(hits, key))[k];
    var i := IndexesOf(EntryGroups(manifest), key)[c.entry];
    OnlyCleanLinesChange(gated, manifest, hits, i);
    CandidateAt(manifest, hits, i);
  }

  /** A clean group is matched by identity alone the second time. */
  lemma CleanGroupStays(gated: string -> bool, manifest: seq<SurfaceEntry>, hits: seq<SurfaceHit>, key: string)
    requires Clean(gated, manifest, hits, key)
    ensures var entries := Entries(Rewritten(gated, manifest, hits), key);
            var claims := Matching(entries, Hits(hits, key));
            |claims| == |entries| && Identities(entries, Hits(hits, key), claims)
  {
    hide Rewritten, GroupKey, Verified, Candidate, IsAlive, Hits, Matching, GroupUpdates, Matched, Identities, Entries;
    var (before, own) := (Entries(manifest, key), Hits(hits, key));
    var claims := Matching(before, own);
    BijectionOf(manifest, hits, key);
    SameSize(gated, manifest, hits, key);
    var entries := Entries(Rewritten(gated, manifest, hits), key);
    var mates := seq(|before|, j requires 0 <= j < |before| => claims[ClaimNumber(claims, j)].hit);
    forall j | 0 <= j < |before|
      ensures mates[j] < |own| && entries[j].entry.line == own[mates[j]].line
    {
      RewrittenLine(gated, manifest, hits, key, ClaimNumber(claims, j));
    }
    forall i, j | 0 <= i < j < |before|
      ensures mates[i] != mates[j]
    {
      var k, l := ClaimNumber(claims, i), ClaimNumber(claims, j);
      assert k < l || l < k;
    }
    IdentityMatching(entries, own, mates);
  }

  lemma SameSize(gated: string -> bool, manifest: seq<SurfaceEntry>, hits: seq<SurfaceHit>, key: string)
    ensures |Entries(Rewritten(gated, manifest, hits), key)| == |Entries(manifest, key)|
  {
    RewrittenSame(gated, manifest, hits);
  }

  /** Updates that leave every line where it is, by identity. */
  ghost predicate KeepsLines(manifest: seq<SurfaceEntry>, updates: seq<LineUpdate>) {
    forall u | u in updates :: !u.viaOrdinalFallback && u.index < |manifest| && u.line == manifest[u.index].line
  }

  lemma CleanUpdatesKeep(gated: string -> bool, manifest: seq<SurfaceEntry>, hits: seq<SurfaceHit>, key: string)
    requires Clean(gated, manifest, hits, key)
    ensures var again := Rewritten(gated, manifest, hits);
            KeepsLines(again, GroupUpdates(again, hits, key)) && !HasMispair(GroupUpdates(again, hits, key))
  {
    hide Rewritten, GroupKey, Clean, Candidate, Hits, Matching;
    CleanGroupStays(gated, manifest, hits, key);
    var again := Rewritten(gated, manifest, hits);
    var (entries, own) := (Entries(again, key), Hits(hits, key));
    InRange(entries, own);
    var updates := GroupUpdates(again, hits, key);
    forall k | 0 <= k < |updates|
      ensures !updates[k].viaOrdinalFallback && updates[k].index < |again| && updates[k].line == again[updates[k].index].line
    {
      assert updates[k] == UpdateOf(entries, own, Matching(entries, own)[k]);
    }
    NoOrdinals(updates);
  }

  lemma {:induction false} NoOrdinals(updates: seq<LineUpdate>)
    requires forall u | u in updates :: !u.viaOrdinalFallback
    ensures Ordinals(updates) == []
  {
    if updates != [] {
      NoOrdinals(updates[..|updates| - 1]);
    }
  }

  lemma {:induction false} KeptLine(manifest: seq<SurfaceEntry>, updates: seq<LineUpdate>, i: nat)
    requires KeepsLines(manifest, updates) && i < |manifest| && LineFor(updates, i).Some?
    ensures LineFor(updates, i) == Some(manifest[i].line)
  {
    if updates[|updates| - 1].index != i {
      KeptLine(manifest, updates[..|updates| - 1], i);
    }
  }

  /** The second run computes the same candidate. */
  lemma SameCandidate(gated: string -> bool, manifest: seq<SurfaceEntry>, hits: seq<SurfaceHit>)
    ensures Candidate(Rewritten(gated, manifest, hits), hits) == Candidate(manifest, hits)
  {
    hide Rewritten, GroupKey, Clean, Candidate, IsAlive, GroupUpdates, SizeMatched, HasMispair, KeepsLines, Entries;
    var again := Rewritten(gated, manifest, hits);
    RewrittenSame(gated, manifest, hits);
    SameKeys(manifest, again, hits);
    forall i | 0 <= i < |manifest|
      ensures Candidate(again, hits)[i] == Candidate(manifest, hits)[i]
    {
      var key := GroupOfEntry(manifest[i]);
      assert GroupOfEntry(again[i]) == key by {
        assert EntryGroups(again)[i] == EntryGroups(manifest)[i];
      }
      OnlyCleanLinesChange(gated, manifest, hits, i);
      CandidateAt(manifest, hits, i);
      CandidateAt(again, hits, i);
      if Clean(gated, manifest, hits, key) {
        CleanUpdatesKeep(gated, manifest, hits, key);
        if SizeMatched(again, hits, key) {
          KeptLine(again, GroupUpdates(again, hits, key), i);
        }
      } else {
        UntouchedGroup(gated, manifest, hits, key);
        SameUpdates(again, manifest, hits, key);
      }
    }
  }

  lemma SameUpdates(a: seq<SurfaceEntry>, b: seq<SurfaceEntry>, hits: seq<SurfaceHit>, key: string)
    requires Entries(a, key) == Entries(b, key)
    ensures GroupUpdates(a, hits, key) == GroupUpdates(b, hits, key)
  {
  }

  /** The second run finds the same groups clean. */
  lemma SameClean(gated: string -> bool, manifest: seq<SurfaceEntry>, hits: seq<SurfaceHit>, key: string)
    ensures Clean(gated, Rewritten(gated, manifest, hits), hits, key) == Clean(gated, manifest, hits, key)
  {
    hide Rewritten, Candidate, GroupUpdates, SizeMatched, HasMispair, KeepsLines, Entries, GroupFails;
    var again := Rewritten(gated, manifest, hits);
    RewrittenSame(gated, manifest, hits);
    SameKeys(manifest, again, hits);
    SameCandidate(gated, manifest, hits);
    if Clean(gated, manifest, hits, key) {
      CleanUpdatesKeep(gated, manifest, hits, key);
    } else {
      UntouchedGroup(gated, manifest, hits, key);
      SameUpdates(again, manifest, hits, key);
    }
  }

  lemma {:induction false} NothingChanges(manifest: seq<SurfaceEntry>, updates: seq<LineUpdate>)
    requires KeepsLines(manifest, updates)
    ensures ChangesOf(manifest, updates) == []
  {
    if updates != [] {
      NothingChanges(manifest, updates[..|updates| - 1]);
    }
  }

  lemma {:induction false} AllKeep(manifest: seq<SurfaceEntry>, hits: seq<SurfaceHit>, keys: seq<string>)
    requires forall key | key in keys :: KeepsLines(manifest, GroupUpdates(manifest, hits, key))
    ensures KeepsLines(manifest, AllUpdates(manifest, hits, keys))
  {
    hide GroupUpdates;
    if keys != [] {
      AllKeep(manifest, hits, keys[..|keys| - 1]);
    }
  }

  lemma CleanKeysAre(gated: string -> bool, manifest: seq<SurfaceEntry>, hits: seq<SurfaceHit>)
    ensures forall key | key in CleanKeys(gated, manifest, hits) :: Clean(gated, manifest, hits, key)
  {
    hide SizeMatched, Verified, AllKeys, Entries;
    FilteredAre(AllKeys(manifest, hits), ToMatch(manifest, hits));
    FilteredAre(MatchedKeys(manifest, hits), IsVerified(gated, manifest, hits));
  }

  lemma SameCleanKeys(gated: string -> bool, manifest: seq<SurfaceEntry>, hits: seq<SurfaceHit>)
    ensures CleanKeys(gated, Rewritten(gated, manifest, hits), hits) == CleanKeys(gated, manifest, hits)
  {
    hide SizeMatched, Verified, AllKeys, Entries, Rewritten;
    var again := Rewritten(gated, manifest, hits);
    RewrittenSame(gated, manifest, hits);
    SameKeys(manifest, again, hits);
    FilteredAre(AllKeys(manifest, hits), ToMatch(manifest, hits));
    forall key | key in MatchedKeys(manifest, hits)
      ensures IsVerified(gated, manifest, hits)(key) == IsVerified(gated, again, hits)(key)
    {
      SameClean(gated, manifest, hits, key);
    }
    FilteredAlike(MatchedKeys(manifest, hits), IsVerified(gated, manifest, hits), IsVerified(gated, again, hits));
  }

  lemma SameManifest(gated: string -> bool, manifest: seq<SurfaceEntry>, hits: seq<SurfaceHit>)
    ensures Rewritten(gated, Rewritten(gated, manifest, hits), hits) == Rewritten(gated, manifest, hits)
  {
    hide Rewritten, Clean, Candidate, IsAlive, GroupKey;
    var again := Rewritten(gated, manifest, hits);
    RewrittenSame(gated, manifest, hits);
    SameCandidate(gated, manifest, hits);
    forall i | 0 <= i < |manifest|
      ensures Rewritten(gated, again, hits)[i] == again[i]
    {
      assert EntryGroups(again)[i] == EntryGroups(manifest)[i];
      SameClean(gated, manifest, hits, GroupOfEntry(manifest[i]));
      OnlyCleanLinesChange(gated, manifest, hits, i);
      OnlyCleanLinesChange(gated, again, hits, i);
    }
  }

  /** Idempotence: a second run on the result, with the same hits, returns it unchanged, reports no
      change and the same number of unresolved groups. */
  lemma RegenerateIsIdempotent(gated: string -> bool, manifest: seq<SurfaceEntry>, hits: seq<SurfaceHit>)
    ensures var once := Regenerated(gated, manifest, hits);
            Regenerated(gated, once.manifest, hits) == Result(once.manifest, [], once.unresolvedGroupCount)
  {
    hide SizeMatched, Verified, AllKeys, Entries, AllUpdates, GroupUpdates, ApplyLineUpdates, CleanKeys, Clean;
    var again := Rewritten(gated, manifest, hits);
    RewrittenSame(gated, manifest, hits);
    SameKeys(manifest, again, hits);
    SameCleanKeys(gated, manifest, hits);
    SameManifest(gated, manifest, hits);
    CleanKeysAre(gated, manifest, hits);
    var keys := CleanKeys(gated, again, hits);
    forall key | key in keys
      ensures KeepsLines(again, GroupUpdates(again, hits, key))
    {
      CleanUpdatesKeep(gated, manifest, hits, key);
    }
    AllKeep(again, hits, keys);
    NothingChanges(again, AllUpdates(again, hits, keys));
  }

  // ----- the report -----

  /** The entries a change list is about, item by item. */
  function ChangedAt(manifest: seq<SurfaceEntry>, updates: seq<LineUpdate>): seq<nat> {
    if updates == [] then []
    else
      var u := updates[|updates| - 1];
      ChangedAt(manifest, updates[..|updates| - 1])
      + if u.index >= |manifest| || u.line == manifest[u.index].line then [] else [u.index]
  }

  predicate Changes(manifest: seq<SurfaceEntry>, u: LineUpdate) {
    u.index < |manifest| && u.line != manifest[u.index].line
  }

  ghost predicate OneEach(updates: seq<LineUpdate>) {
    forall i, j | 0 <= i < j < |updates| :: updates[i].index != updates[j].index
  }

  ghost predicate ChangeBy(manifest: seq<SurfaceEntry>, updates: seq<LineUpdate>, i: nat, c: Change) {
    exists u | u in updates && Changes(manifest, u) ::
      u.index == i && c == Change(manifest[i].path, manifest[i].rule, manifest[i].line, u.line)
  }

  lemma {:induction false} ChangesListed(manifest: seq<SurfaceEntry>, updates: seq<LineUpdate>)
    requires OneEach(updates)
    ensures var at := ChangedAt(manifest, updates);
            && |at| == |ChangesOf(manifest, updates)| && Distinct(at)
            && (forall i :: i in at <==> exists u | u in updates && Changes(manifest, u) :: u.index == i)
            && (forall k | 0 <= k < |at| :: ChangeBy(manifest, updates, at[k], ChangesOf(manifest, updates)[k]))
  {
    if updates != [] {
      var (front, last) := (updates[..|updates| - 1], updates[|updates| - 1]);
      ChangesListed(manifest, front);
      assert updates == front + [last];
      assert forall u :: u in updates <==> u in front || u == last;
      assert forall u | u in front :: u.index != last.index;
    }
  }

  /** The keys of the groups the entries are in come in the order of `keys`. */
  ghost predicate InGroupOrder(manifest: seq<SurfaceEntry>, keys: seq<string>, at: seq<nat>) {
    forall a, b | 0 <= a < b < |at| :: InOrder(manifest, keys, at[a], at[b])
  }

  ghost predicate InOrder(manifest: seq<SurfaceEntry>, keys: seq<string>, i: nat, j: nat) {
    && i < |manifest| && j < |manifest|
    && exists m, n | 0 <= m <= n < |keys| :: keys[m] == GroupOfEntry(manifest[i]) && keys[n] == GroupOfEntry(manifest[j])
  }

  ghost predicate NoRepeats(keys: seq<string>) { forall i, j | 0 <= i < j < |keys| :: keys[i] != keys[j] }

  lemma {:induction false} KeysOnce(seen: seq<string>, keys: seq<string>)
    requires NoRepeats(seen)
    ensures NoRepeats(KeysAfter(seen, keys))
  {
    if keys != [] {
      KeysOnce(seen, keys[..|keys| - 1]);
    }
  }

  lemma {:induction false} FilteredOnce(keys: seq<string>, keep: string -> bool)
    requires NoRepeats(keys)
    ensures NoRepeats(Filtered(keys, keep)) && forall key | key in Filtered(keys, keep) :: key in keys
  {
    if keys != [] {
      FilteredOnce(keys[..|keys| - 1], keep);
      assert keys[|keys| - 1] !in keys[..|keys| - 1];
    }
  }

  lemma CleanKeysOnce(gated: string -> bool, manifest: seq<SurfaceEntry>, hits: seq<SurfaceHit>)
    ensures NoRepeats(CleanKeys(gated, manifest, hits))
  {
    hide SizeMatched, Verified, EntryGroups, HitGroups, KeysAfter, Filtered;
    KeysOnce([], EntryGroups(manifest));
    KeysOnce(KeysAfter([], EntryGroups(manifest)), KeysAfter([], HitGroups(hits)));
    FilteredOnce(AllKeys(manifest, hits), ToMatch(manifest, hits));
    FilteredOnce(MatchedKeys(manifest, hits), IsVerified(gated, manifest, hits));
  }

  lemma OneEachInGroup(manifest: seq<SurfaceEntry>, hits: seq<SurfaceHit>, key: string)
    requires SizeMatched(manifest, hits, key)
    ensures OneEach(GroupUpdates(manifest, hits, key))
  {
    hide Matching, Hits, SizeMatched;
    var (entries, own) := (Entries(manifest, key), Hits(hits, key));
    BijectionOf(manifest, hits, key);
    InRange(entries, own);
    var claims, updates := Matching(entries, own), GroupUpdates(manifest, hits, key);
    forall i, j | 0 <= i < j < |updates|
      ensures updates[i].index != updates[j].index
    {
      assert claims[i].entry != claims[j].entry;
    }
  }

  /** The updates of distinct groups: one for an entry at most, group after group. */
  lemma {:induction false} OneEachInAll(manifest: seq<SurfaceEntry>, hits: seq<SurfaceHit>, keys: seq<string>)
    requires NoRepeats(keys) && forall key | key in keys :: SizeMatched(manifest, hits, key)
    ensures OneEach(AllUpdates(manifest, hits, keys))
  {
    hide GroupUpdates, SizeMatched, GroupKey;
    if keys != [] {
      var (front, last) := (keys[..|keys| - 1], keys[|keys| - 1]);
      OneEachInAll(manifest, hits, front);
      OneEachInGroup(manifest, hits, last);
      UpdatesAreOfGroup(manifest, hits, last);
      forall u | u in AllUpdates(manifest, hits, front)
        ensures u.index < |manifest| && GroupOfEntry(manifest[u.index]) != last
      {
        var key := UpdateOfSomeGroup(manifest, hits, front, u);
        UpdatesAreOfGroup(manifest, hits, key);
      }
    }
  }

  lemma {:induction false} UpdateBehind(updates: seq<LineUpdate>, i: nat) returns (u: LineUpdate)
    requires LineFor(updates, i).Some?
    ensures u in updates && u.index == i && LineFor(updates, i) == Some(u.line)
  {
    if updates[|updates| - 1].index == i {
      u := updates[|updates| - 1];
    } else {
      u := UpdateBehind(updates[..|updates| - 1], i);
    }
  }

  lemma {:induction false} UpdateOfSomeGroup(manifest: seq<SurfaceEntry>, hits: seq<SurfaceHit>, keys: seq<string>,
                                             u: LineUpdate) returns (key: string)
    requires u in AllUpdates(manifest, hits, keys)
    ensures key in keys && u in GroupUpdates(manifest, hits, key)
  {
    hide GroupUpdates;
    var (front, last) := (keys[..|keys| - 1], keys[|keys| - 1]);
    if u in GroupUpdates(manifest, hits, last) {
      key := last;
    } else {
      key := UpdateOfSomeGroup(manifest, hits, front, u);
    }
  }

  lemma UpdateCounts(manifest: seq<SurfaceEntry>, hits: seq<SurfaceHit>, key: string, u: LineUpdate)
    requires SizeMatched(manifest, hits, key) && u in GroupUpdates(manifest, hits, key)
    ensures LineFor(GroupUpdates(manifest, hits, key), u.index) == Some(u.line)
  {
    hide SizeMatched, Entries, Hits, Matching, LineFor;
    var k :| 0 <= k < |GroupUpdates(manifest, hits, key)| && GroupUpdates(manifest, hits, key)[k] == u;
    InRange(Entries(manifest, key), Hits(hits, key));
    ClaimLine(manifest, hits, key, k);
  }

  lemma {:induction false} ChangedConcat(manifest: seq<SurfaceEntry>, a: seq<LineUpdate>, b: seq<LineUpdate>)
    ensures ChangedAt(manifest, a + b) == ChangedAt(manifest, a) + ChangedAt(manifest, b)
  {
    if b == [] {
      assert a + b == a;
    } else {
      assert (a + b)[..|a + b| - 1] == a + b[..|b| - 1];
      ChangedConcat(manifest, a, b[..|b| - 1]);
    }
  }

  lemma {:induction false} ChangedAreUpdated(manifest: seq<SurfaceEntry>, updates: seq<LineUpdate>)
    ensures forall i | i in ChangedAt(manifest, updates) :: exists u :: u in updates && u.index == i
  {
    if updates != [] {
      ChangedAreUpdated(manifest, updates[..|updates| - 1]);
    }
  }

  /** The changed entries come group after group. */
  lemma {:induction false} ChangedInOrder(manifest: seq<SurfaceEntry>, hits: seq<SurfaceHit>, keys: seq<string>)
    ensures InGroupOrder(manifest, keys, ChangedAt(manifest, AllUpdates(manifest, hits, keys)))
  {
    hide GroupUpdates, ChangedAt, GroupKey;
    if keys == [] {
      NoneChanged(manifest);
    } else {
      var (front, last) := (keys[..|keys| - 1], keys[|keys| - 1]);
      ChangedInOrder(manifest, hits, front);
      var (above, own) := (AllUpdates(manifest, hits, front), GroupUpdates(manifest, hits, last));
      ChangedConcat(manifest, above, own);
      ChangedAreUpdated(manifest, above);
      ChangedAreUpdated(manifest, own);
      UpdatesAreOfGroup(manifest, hits, last);
      var at := ChangedAt(manifest, above) + ChangedAt(manifest, own);
      forall a, b | 0 <= a < b < |at|
        ensures InOrder(manifest, keys, at[a], at[b])
      {
        if b >= |ChangedAt(manifest, above)| {
          var n := |keys| - 1;
          assert at[b] in ChangedAt(manifest, own);
          if a < |ChangedAt(manifest, above)| {
            assert at[a] in ChangedAt(manifest, above);
            var u :| u in above && u.index == at[a];
            var key := UpdateOfSomeGroup(manifest, hits, front, u);
            UpdatesAreOfGroup(manifest, hits, key);
            var m :| 0 <= m < |front| && front[m] == key;
            assert keys[m] == key && keys[n] == last;
          } else {
            assert at[a] in ChangedAt(manifest, own);
            assert keys[n] == last;
          }
        } else {
          assert InOrder(manifest, front, at[a], at[b]);
          var m, n :| 0 <= m <= n < |front| && front[m] == GroupOfEntry(manifest[at[a]])
                      && front[n] == GroupOfEntry(manifest[at[b]]);
          assert keys[m] == front[m] && keys[n] == front[n];
        }
      }
    }
  }

  lemma NoneChanged(manifest: seq<SurfaceEntry>)
    ensures ChangedAt(manifest, []) == []
  {
  }

  lemma ChangesAre(manifest: seq<SurfaceEntry>, updates: seq<LineUpdate>)
    requires OneEach(updates)
    requires forall u | u in updates :: u.index < |manifest| && LineFor(updates, u.index) == Some(u.line)
    ensures var (at, changes) := (ChangedAt(manifest, updates), ChangesOf(manifest, updates));
            var after := ApplyLineUpdates(manifest, updates);
            && |at| == |changes| && Distinct(at)
            && (forall i: nat :: i in at <==> i < |manifest| && after[i].line != manifest[i].line)
            && (forall k | 0 <= k < |at| :: at[k] < |manifest| && changes[k] == ChangeAt(manifest, after, at[k]))
  {
    hide ChangedAt, ChangesOf, LineFor;
    ChangesListed(manifest, updates);
    var at, after := ChangedAt(manifest, updates), ApplyLineUpdates(manifest, updates);
    forall i: nat | i < |manifest| && after[i].line != manifest[i].line
      ensures i in at
    {
      var u := UpdateBehind(updates, i);
      assert Changes(manifest, u);
    }
    forall k | 0 <= k < |at|
      ensures at[k] < |manifest| && ChangesOf(manifest, updates)[k] == ChangeAt(manifest, after, at[k])
    {
      assert ChangeBy(manifest, updates, at[k], ChangesOf(manifest, updates)[k]);
    }
  }

  function ChangeAt(before: seq<SurfaceEntry>, after: seq<SurfaceEntry>, i: nat): Change
    requires i < |before| == |after|
  {
    Change(before[i].path, before[i].rule, before[i].line, after[i].line)
  }

  /** The change list has one item for every entry whose line the rewrite changed and no other, each with
      both lines, group after group in the order the groups first appear. */
  lemma ChangesAreExact(gated: string -> bool, manifest: seq<SurfaceEntry>, hits: seq<SurfaceHit>) returns (at: seq<nat>)
    ensures var (changes, after) := (Regenerated(gated, manifest, hits).changes, Rewritten(gated, manifest, hits));
            && |at| == |changes| && Distinct(at)
            && (forall i: nat :: i in at <==> i < |manifest| && after[i].line != manifest[i].line)
            && (forall k | 0 <= k < |at| :: at[k] < |manifest| && changes[k] == ChangeAt(manifest, after, at[k]))
    ensures InGroupOrder(manifest, CleanKeys(gated, manifest, hits), at)
  {
    hide SizeMatched, Verified, AllUpdates, GroupUpdates, LineFor, CleanKeys, GroupKey, ChangedAt, ChangesOf, OneEach;
    var keys := CleanKeys(gated, manifest, hits);
    var updates := AllUpdates(manifest, hits, keys);
    CleanKeysAre(gated, manifest, hits);
    CleanKeysOnce(gated, manifest, hits);
    OneEachInAll(manifest, hits, keys);
    forall u | u in updates
      ensures u.index < |manifest| && LineFor(updates, u.index) == Some(u.line)
    {
      var key := UpdateOfSomeGroup(manifest, hits, keys, u);
      UpdatesAreOfGroup(manifest, hits, key);
      LineInGroups(manifest, hits, keys, u.index);
      UpdateCounts(manifest, hits, key, u);
    }
    ChangesAre(manifest, updates);
    ChangedInOrder(manifest, hits, keys);
    at := ChangedAt(manifest, updates);
  }
}
