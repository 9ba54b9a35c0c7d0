/** Re-pointing the manifest's `line` fields to the live hits, group by group. */
module SurfaceRegenerate {
  import opened GroupMatching
  import opened StableSort
  import opened SurfaceManifest
  import opened Text

  // ----- groups -----

  function EntryGroups(manifest: seq<SurfaceEntry>): (keys: seq<string>)
    ensures |keys| == |manifest| && forall i | 0 <= i < |manifest| :: keys[i] == GroupOfEntry(manifest[i])
  {
    seq(|manifest|, i requires 0 <= i < |manifest| => GroupOfEntry(manifest[i]))
  }

  function HitGroups(hits: seq<SurfaceHit>): (keys: seq<string>)
    ensures |keys| == |hits| && forall i | 0 <= i < |hits| :: keys[i] == GroupOfHit(hits[i])
  {
    seq(|hits|, i requires 0 <= i < |hits| => GroupOfHit(hits[i]))
  }

  /** The indexes holding `key`, ascending. */
  function IndexesOf(keys: seq<string>, key: string): (r: seq<nat>)
    ensures forall k | 0 <= k < |r| :: r[k] < |keys| && keys[r[k]] == key
    ensures forall i | 0 <= i < |keys| && keys[i] == key :: i in r
    ensures forall i, j | 0 <= i < j < |r| :: r[i] < r[j]
  {
    if keys == [] then []
    else
      var last := |keys| - 1;
      IndexesOf(keys[..last], key) + if keys[last] == key then [last] else []
  }

  function Indexed(manifest: seq<SurfaceEntry>, indexes: seq<nat>): (entries: seq<IndexedEntry>)
    requires forall k | 0 <= k < |indexes| :: indexes[k] < |manifest|
    ensures |entries| == |indexes|
    ensures forall k | 0 <= k < |indexes| :: entries[k] == IndexedEntry(indexes[k], manifest[indexes[k]])
  {
    seq(|indexes|, k requires 0 <= k < |indexes| => IndexedEntry(indexes[k], manifest[indexes[k]]))
  }

  /** A group's entries, in manifest order. */
  function Entries(manifest: seq<SurfaceEntry>, key: string): seq<IndexedEntry> {
    Indexed(manifest, IndexesOf(EntryGroups(manifest), key))
  }

  predicate LineLess(a: SurfaceHit, b: SurfaceHit) { a.line < b.line }

  /** A group's hits, by ascending line. */
  function Hits(hits: seq<SurfaceHit>, key: string): seq<SurfaceHit> {
    Sort(InGroup(hits, GroupOfHit, key), LineLess)
  }

  lemma HitsAre(hits: seq<SurfaceHit>, key: string)
    ensures forall h :: h in Hits(hits, key) <==> h in hits && GroupOfHit(h) == key
    ensures IsSorted(Hits(hits, key), LineLess)
  {
    hide Sort, InGroup, GroupKey;
    var own := InGroup(hits, GroupOfHit, key);
    SortHas(own, LineLess);
    SortSorts(own, LineLess);
  }

  // ----- updates -----

  /** The line the updates give to entry `i`: the last one counts. */
  function LineFor(updates: seq<LineUpdate>, i: nat): Option<nat> {
    if updates == [] then None
    else
      var u := updates[|updates| - 1];
      if u.index == i then Some(u.line) else LineFor(updates[..|updates| - 1], i)
  }

  /** Only `line` changes, and only where an update says so. */
  function ApplyLineUpdates(manifest: seq<SurfaceEntry>, updates: seq<LineUpdate>): (r: seq<SurfaceEntry>)
    ensures |r| == |manifest|
    ensures forall i | 0 <= i < |r| ::
              r[i] == var line := LineFor(updates, i); if line.None? then manifest[i] else manifest[i].(line := line.value)
  {
    seq(|manifest|, i requires 0 <= i < |manifest| =>
      var line := LineFor(updates, i);
      if line.None? then manifest[i] else manifest[i].(line := line.value))
  }

  predicate SizeMatched(manifest: seq<SurfaceEntry>, hits: seq<SurfaceHit>, key: string) {
    |Entries(manifest, key)| == |Hits(hits, key)|
  }

  function GroupUpdates(manifest: seq<SurfaceEntry>, hits: seq<SurfaceHit>, key: string): seq<LineUpdate> {
    Updates(Entries(manifest, key), Hits(hits, key))
  }

  /** The updates of the groups `keys`, group after group. */
  function AllUpdates(manifest: seq<SurfaceEntry>, hits: seq<SurfaceHit>, keys: seq<string>): seq<LineUpdate> {
    if keys == [] then []
    else AllUpdates(manifest, hits, keys[..|keys| - 1]) + GroupUpdates(manifest, hits, keys[|keys| - 1])
  }

  lemma {:induction false} LineForConcat(a: seq<LineUpdate>, b: seq<LineUpdate>, i: nat)
    ensures LineFor(a + b, i) == if LineFor(b, i).Some? then LineFor(b, i) else LineFor(a, i)
  {
    if b == [] {
      assert a + b == a;
    } else {
      assert (a + b)[..|a + b| - 1] == a + b[..|b| - 1];
      LineForConcat(a, b[..|b| - 1], i);
    }
  }

  lemma {:induction false} NoLineFor(updates: seq<LineUpdate>, i: nat)
    requires forall u | u in updates :: u.index != i
    ensures LineFor(updates, i).None?
  {
    if updates != [] {
      NoLineFor(updates[..|updates| - 1], i);
    }
  }

  lemma {:induction false} OneLineFor(updates: seq<LineUpdate>, k: nat)
    requires k < |updates| && forall j | 0 <= j < |updates| && j != k :: updates[j].index != updates[k].index
    ensures LineFor(updates, updates[k].index) == Some(updates[k].line)
  {
    if k < |updates| - 1 {
      OneLineFor(updates[..|updates| - 1], k);
    }
  }

  lemma UpdatesAreOfGroup(manifest: seq<SurfaceEntry>, hits: seq<SurfaceHit>, key: string)
    ensures forall u | u in GroupUpdates(manifest, hits, key) ::
              u.index < |manifest| && GroupOfEntry(manifest[u.index]) == key
  {
    hide Matching, UpdatesOf, Hits;
    var entries := Entries(manifest, key);
    InRange(entries, Hits(hits, key));
    forall u | u in GroupUpdates(manifest, hits, key)
      ensures u.index < |manifest| && GroupOfEntry(manifest[u.index]) == key
    {
      var k :| 0 <= k < |Matching(entries, Hits(hits, key))| && u == GroupUpdates(manifest, hits, key)[k];
      assert u.index == entries[Matching(entries, Hits(hits, key))[k].entry].index;
      assert u.index in IndexesOf(EntryGroups(manifest), key);
    }
  }

  /** A size-matched group's updates give every entry the line of the hit it took. */
  lemma ClaimLine(manifest: seq<SurfaceEntry>, hits: seq<SurfaceHit>, key: string, k: nat)
    requires SizeMatched(manifest, hits, key) && k < |Matching(Entries(manifest, key), Hits(hits, key))|
    ensures var c := Matching(Entries(manifest, key), Hits(hits, key))[k];
            && c.entry < |Entries(manifest, key)| && c.hit < |Hits(hits, key)|
            && LineFor(GroupUpdates(manifest, hits, key), Entries(manifest, key)[c.entry].index)
               == Some(Hits(hits, key)[c.hit].line)
  {
    hide Matching, Hits, Matched;
    var (entries, own) := (Entries(manifest, key), Hits(hits, key));
    MatchingIsBijection(entries, own);
    InRange(entries, own);
    var claims, updates := Matching(entries, own), GroupUpdates(manifest, hits, key);
    forall l | 0 <= l < |updates| && l != k
      ensures updates[l].index != updates[k].index
    {
      assert claims[l].entry != claims[k].entry;
    }
    OneLineFor(updates, k);
  }

  lemma GroupLine(manifest: seq<SurfaceEntry>, hits: seq<SurfaceHit>, key: string, j: nat) returns (c: Claim)
    requires SizeMatched(manifest, hits, key) && j < |Entries(manifest, key)|
    ensures c in Matching(Entries(manifest, key), Hits(hits, key)) && c.entry == j && c.hit < |Hits(hits, key)|
    ensures LineFor(GroupUpdates(manifest, hits, key), Entries(manifest, key)[j].index) == Some(Hits(hits, key)[c.hit].line)
  {
    hide Matching, Hits, Matched, GroupUpdates, LineFor, SizeMatched;
    var (entries, own) := (Entries(manifest, key), Hits(hits, key));
    BijectionOf(manifest, hits, key);
    var k := ClaimOf(Matching(entries, own), j);
    ClaimLine(manifest, hits, key, k);
    c := Matching(entries, own)[k];
  }

  lemma BijectionOf(manifest: seq<SurfaceEntry>, hits: seq<SurfaceHit>, key: string)
    requires SizeMatched(manifest, hits, key)
    ensures var claims := Matching(Entries(manifest, key), Hits(hits, key));
            && |claims| == |Entries(manifest, key)|
            && OneToOne(claims, |Entries(manifest, key)|, |Hits(hits, key)|)
            && (forall j | 0 <= j < |Entries(manifest, key)| :: Matched(claims, j))
            && (forall p | 0 <= p < |Hits(hits, key)| :: Taken(claims, p))
  {
    hide Entries, Hits, Matching, OneToOne;
    MatchingIsBijection(Entries(manifest, key), Hits(hits, key));
  }

  lemma ClaimOf(claims: seq<Claim>, j: nat) returns (k: nat)
    requires Matched(claims, j)
    ensures k < |claims| && claims[k].entry == j
  {
    var c :| c in claims && c.entry == j;
    k :| 0 <= k < |claims| && claims[k] == c;
  }

  /** Entry `i` has position `j` in its group. */
  lemma PlaceInGroup(manifest: seq<SurfaceEntry>, i: nat) returns (j: nat)
    requires i < |manifest|
    ensures var entries := Entries(manifest, GroupOfEntry(manifest[i]));
            j < |entries| && entries[j] == IndexedEntry(i, manifest[i])
  {
    var indexes := IndexesOf(EntryGroups(manifest), GroupOfEntry(manifest[i]));
    assert i in indexes;
    j :| 0 <= j < |indexes| && indexes[j] == i;
  }

  /** The updates of several groups give entry `i` the line its own group's updates give it. */
  lemma {:induction false} LineInGroups(manifest: seq<SurfaceEntry>, hits: seq<SurfaceHit>, keys: seq<string>, i: nat)
    requires i < |manifest| && forall key | key in keys :: SizeMatched(manifest, hits, key)
    ensures var key := GroupOfEntry(manifest[i]);
            LineFor(AllUpdates(manifest, hits, keys), i) ==
            if key in keys then LineFor(GroupUpdates(manifest, hits, key), i) else None
  {
    hide GroupUpdates, SizeMatched, GroupKey;
    if keys != [] {
      var (front, last) := (keys[..|keys| - 1], keys[|keys| - 1]);
      LineInGroups(manifest, hits, front, i);
      var own := GroupUpdates(manifest, hits, last);
      LineForConcat(AllUpdates(manifest, hits, front), own, i);
      assert keys == front + [last];
      if last == GroupOfEntry(manifest[i]) {
        var j := PlaceInGroup(manifest, i);
        var c := GroupLine(manifest, hits, last, j);
      } else {
        UpdatesAreOfGroup(manifest, hits, last);
        NoLineFor(own, i);
      }
    }
  }

  // ----- the transformation -----

  const SENTINEL: string := "(see comment context)"

  predicate IsOrdinal(u: LineUpdate) { u.viaOrdinalFallback }

  function Ordinals(updates: seq<LineUpdate>): seq<LineUpdate> {
    if updates == [] then []
    else
      Ordinals(updates[..|updates| - 1])
      + if IsOrdinal(updates[|updates| - 1]) then [updates[|updates| - 1]] else []
  }

  predicate IsMispaired(u: LineUpdate) {
    Trim(u.entrySymbol) != SENTINEL && Trim(u.entrySymbol) != Trim(u.hitText)
  }

  /** Two or more ordinal pairs, one of which joins a real symbol to another text. */
  predicate HasMispair(updates: seq<LineUpdate>) {
    |Ordinals(updates)| >= 2 && exists u | u in Ordinals(updates) :: IsMispaired(u)
  }

  /** Keys in order of first appearance, after those already seen. */
  function KeysAfter(seen: seq<string>, keys: seq<string>): seq<string> {
    if keys == [] then seen
    else
      var before := KeysAfter(seen, keys[..|keys| - 1]);
      if keys[|keys| - 1] in before then before else before + [keys[|keys| - 1]]
  }

  /** All group keys: the manifest's, then those only hits have. */
  function AllKeys(manifest: seq<SurfaceEntry>, hits: seq<SurfaceHit>): seq<string> {
    KeysAfter(KeysAfter([], EntryGroups(manifest)), KeysAfter([], HitGroups(hits)))
  }

  function Filtered(keys: seq<string>, keep: string -> bool): seq<string> {
    if keys == [] then []
    else Filtered(keys[..|keys| - 1], keep) + if keep(keys[|keys| - 1]) then [keys[|keys| - 1]] else []
  }

  /** The groups to be matched: of equal size, and not empty. */
  function ToMatch(manifest: seq<SurfaceEntry>, hits: seq<SurfaceHit>): string -> bool {
    (key: string) => SizeMatched(manifest, hits, key) && Entries(manifest, key) != []
  }

  function Mismatch(manifest: seq<SurfaceEntry>, hits: seq<SurfaceHit>): string -> bool {
    (key: string) => !SizeMatched(manifest, hits, key)
  }

  function MatchedKeys(manifest: seq<SurfaceEntry>, hits: seq<SurfaceHit>): seq<string> {
    Filtered(AllKeys(manifest, hits), ToMatch(manifest, hits))
  }

  /** The manifest with every matched group's updates applied. */
  function Candidate(manifest: seq<SurfaceEntry>, hits: seq<SurfaceHit>): (r: seq<SurfaceEntry>)
    ensures |r| == |manifest|
  {
    ApplyLineUpdates(manifest, AllUpdates(manifest, hits, MatchedKeys(manifest, hits)))
  }

  /** The group passes both self-checks. */
  ghost predicate Verified(gated: string -> bool, manifest: seq<SurfaceEntry>, hits: seq<SurfaceHit>, key: string) {
    !GroupFails(gated, hits, Candidate(manifest, hits), key) && !HasMispair(GroupUpdates(manifest, hits, key))
  }

  ghost function IsVerified(gated: string -> bool, manifest: seq<SurfaceEntry>, hits: seq<SurfaceHit>): string -> bool {
    (key: string) => Verified(gated, manifest, hits, key)
  }

  ghost function CleanKeys(gated: string -> bool, manifest: seq<SurfaceEntry>, hits: seq<SurfaceHit>): seq<string> {
    Filtered(MatchedKeys(manifest, hits), IsVerified(gated, manifest, hits))
  }

  datatype Change = Change(path: string, rule: Predicate, oldLine: nat, newLine: nat)

  function ChangesOf(manifest: seq<SurfaceEntry>, updates: seq<LineUpdate>): seq<Change> {
    if updates == [] then []
    else
      var u := updates[|updates| - 1];
      ChangesOf(manifest, updates[..|updates| - 1])
      + if u.index >= |manifest| || u.line == manifest[u.index].line then []
        else [Change(manifest[u.index].path, manifest[u.index].rule, manifest[u.index].line, u.line)]
  }

  datatype Result = Result(manifest: seq<SurfaceEntry>, changes: seq<Change>, unresolvedGroupCount: int)

  ghost function Regenerated(gated: string -> bool, manifest: seq<SurfaceEntry>, hits: seq<SurfaceHit>): Result {
    var clean := AllUpdates(manifest, hits, CleanKeys(gated, manifest, hits));
    Result(ApplyLineUpdates(manifest, clean), ChangesOf(manifest, clean),
           |Filtered(AllKeys(manifest, hits), Mismatch(manifest, hits))|
           + (|MatchedKeys(manifest, hits)| - |CleanKeys(gated, manifest, hits)|))
  }

  // ----- what each entry becomes -----

  lemma {:induction false} FilteredAre(keys: seq<string>, keep: string -> bool)
    ensures forall key :: key in Filtered(keys, keep) <==> key in keys && keep(key)
  {
    if keys != [] {
      FilteredAre(keys[..|keys| - 1], keep);
      assert keys == keys[..|keys| - 1] + [keys[|keys| - 1]];
    }
  }

  lemma {:induction false} KeysAre(seen: seq<string>, keys: seq<string>)
    ensures forall key :: key in KeysAfter(seen, keys) <==> key in seen || key in keys
  {
    if keys != [] {
      KeysAre(seen, keys[..|keys| - 1]);
      assert keys == keys[..|keys| - 1] + [keys[|keys| - 1]];
    }
  }

  lemma KeyIsListed(manifest: seq<SurfaceEntry>, hits: seq<SurfaceHit>, i: nat)
    requires i < |manifest|
    ensures GroupOfEntry(manifest[i]) in AllKeys(manifest, hits)
    ensures Entries(manifest, GroupOfEntry(manifest[i])) != []
  {
    KeysAre([], EntryGroups(manifest));
    KeysAre(KeysAfter([], EntryGroups(manifest)), KeysAfter([], HitGroups(hits)));
    assert EntryGroups(manifest)[i] in EntryGroups(manifest);
    var j := PlaceInGroup(manifest, i);
  }

  /** The line entry `i` gets if its group is applied. */
  function Assigned(manifest: seq<SurfaceEntry>, hits: seq<SurfaceHit>, i: nat): Option<nat>
    requires i < |manifest|
  {
    LineFor(GroupUpdates(manifest, hits, GroupOfEntry(manifest[i])), i)
  }

  lemma CandidateAt(manifest: seq<SurfaceEntry>, hits: seq<SurfaceHit>, i: nat)
    requires i < |manifest|
    ensures var key := GroupOfEntry(manifest[i]);
            if SizeMatched(manifest, hits, key)
            then Assigned(manifest, hits, i).Some?
                 && Candidate(manifest, hits)[i] == manifest[i].(line := Assigned(manifest, hits, i).value)
            else Candidate(manifest, hits)[i] == manifest[i]
  {
    hide SizeMatched, GroupUpdates, AllKeys, Entries, GroupKey;
    var (key, keys) := (GroupOfEntry(manifest[i]), MatchedKeys(manifest, hits));
    FilteredAre(AllKeys(manifest, hits), ToMatch(manifest, hits));
    KeyIsListed(manifest, hits, i);
    LineInGroups(manifest, hits, keys, i);
    if SizeMatched(manifest, hits, key) {
      var j := PlaceInGroup(manifest, i);
      var c := GroupLine(manifest, hits, key, j);
    }
  }

  /** An entry of a clean group gets its candidate line; every other entry stays as it is. */
  lemma ResultAt(gated: string -> bool, manifest: seq<SurfaceEntry>, hits: seq<SurfaceHit>, i: nat)
    requires i < |manifest|
    ensures var key := GroupOfEntry(manifest[i]);
            Regenerated(gated, manifest, hits).manifest[i] ==
            if SizeMatched(manifest, hits, key) && Verified(gated, manifest, hits, key)
            then Candidate(manifest, hits)[i] else manifest[i]
  {
    hide SizeMatched, GroupUpdates, AllKeys, Entries, GroupKey, Verified, Candidate;
    var keys := CleanKeys(gated, manifest, hits);
    FilteredAre(AllKeys(manifest, hits), ToMatch(manifest, hits));
    FilteredAre(MatchedKeys(manifest, hits), IsVerified(gated, manifest, hits));
    KeyIsListed(manifest, hits, i);
    LineInGroups(manifest, hits, keys, i);
    CandidateAt(manifest, hits, i);
  }

  // ----- the self-check -----

  /** Entry `i` of a size-matched group ends up on a hit of its group. */
  lemma LandsOnHit(manifest: seq<SurfaceEntry>, hits: seq<SurfaceHit>, i: nat) returns (h: SurfaceHit)
    requires i < |manifest| && SizeMatched(manifest, hits, GroupOfEntry(manifest[i]))
    ensures h in hits && KeyOfHit(h) == KeyOfEntry(Candidate(manifest, hits)[i])
  {
    hide SizeMatched, GroupUpdates, Candidate, Matching, Entries, Hits, EntryKey, GroupKey;
    var key := GroupOfEntry(manifest[i]);
    var j := PlaceInGroup(manifest, i);
    var c := GroupLine(manifest, hits, key, j);
    CandidateAt(manifest, hits, i);
    h := Hits(hits, key)[c.hit];
    HitsAre(hits, key);
    GroupKeyInjective(h.path, h.rule, manifest[i].path, manifest[i].rule);
  }

  /** Every hit of a size-matched group is where some entry of the group ends up. */
  lemma IsLandedOn(manifest: seq<SurfaceEntry>, hits: seq<SurfaceHit>, h: SurfaceHit) returns (i: nat)
    requires h in hits && SizeMatched(manifest, hits, GroupOfHit(h))
    ensures i < |manifest| && KeyOfEntry(Candidate(manifest, hits)[i]) == KeyOfHit(h)
  {
    hide SizeMatched, GroupUpdates, Candidate, Matching, Hits, EntryKey, GroupKey;
    var key := GroupOfHit(h);
    HitsAre(hits, key);
    var p :| 0 <= p < |Hits(hits, key)| && Hits(hits, key)[p] == h;
    var claims := Matching(Entries(manifest, key), Hits(hits, key));
    BijectionOf(manifest, hits, key);
    var k := TakerOf(claims, p);
    ClaimLine(manifest, hits, key, k);
    i := Entries(manifest, key)[claims[k].entry].index;
    assert EntryGroups(manifest)[i] == key;
    CandidateAt(manifest, hits, i);
    GroupKeyInjective(h.path, h.rule, manifest[i].path, manifest[i].rule);
  }

  lemma TakerOf(claims: seq<Claim>, p: nat) returns (k: nat)
    requires Taken(claims, p)
    ensures k < |claims| && claims[k].hit == p
  {
    var c :| c in claims && c.hit == p;
    k :| 0 <= k < |claims| && claims[k] == c;
  }

  lemma SameEntry(gated: string -> bool, manifest: seq<SurfaceEntry>, hits: seq<SurfaceHit>, i: nat)
    requires i < |manifest|
    ensures var e := Candidate(manifest, hits)[i];
            GroupOfEntry(e) == GroupOfEntry(manifest[i]) && IsSound(gated, e) == IsSound(gated, manifest[i])
  {
    hide Trim, SizeMatched, GroupUpdates, Entries, GroupKey, AllKeys, AllUpdates;
  }

  /** In a size-matched group the candidate leaves no hit unlisted and no entry dead, so the self-check
      can only object to what an entry says about itself. */
  lemma CandidateHasNoGap(gated: string -> bool, manifest: seq<SurfaceEntry>, hits: seq<SurfaceHit>, key: string)
    requires SizeMatched(manifest, hits, key)
    ensures forall h | h in hits && GroupOfHit(h) == key :: IsListed(h, Candidate(manifest, hits))
    ensures forall e | e in Candidate(manifest, hits) && GroupOfEntry(e) == key :: IsAlive(e, hits)
    ensures GroupFails(gated, hits, Candidate(manifest, hits), key) <==>
            exists e | e in manifest :: GroupOfEntry(e) == key && !IsSound(gated, e)
  {
    hide SizeMatched, GroupUpdates, Candidate, Entries, Hits, EntryKey, GroupKey, IsSound;
    var candidate := Candidate(manifest, hits);
    forall h | h in hits && GroupOfHit(h) == key
      ensures IsListed(h, candidate)
    {
      var i := IsLandedOn(manifest, hits, h);
      assert candidate[i] in candidate;
    }
    forall i | 0 <= i < |manifest|
      ensures candidate[i] in candidate && GroupOfEntry(candidate[i]) == GroupOfEntry(manifest[i])
      ensures IsSound(gated, candidate[i]) == IsSound(gated, manifest[i])
      ensures GroupOfEntry(manifest[i]) == key ==> IsAlive(candidate[i], hits)
    {
      SameEntry(gated, manifest, hits, i);
      if GroupOfEntry(manifest[i]) == key {
        var h := LandsOnHit(manifest, hits, i);
      }
    }
    forall e | e in candidate && GroupOfEntry(e) == key
      ensures IsAlive(e, hits)
    {
      var i :| 0 <= i < |candidate| && candidate[i] == e;
    }
    assert (exists e | e in candidate :: GroupOfEntry(e) == key && !IsSound(gated, e)) <==>
           (exists e | e in manifest :: GroupOfEntry(e) == key && !IsSound(gated, e)) by {
      SoundAlike(gated, manifest, candidate, key);
    }
  }

  lemma SoundAlike(gated: string -> bool, a: seq<SurfaceEntry>, b: seq<SurfaceEntry>, key: string)
    requires |a| == |b|
    requires forall i | 0 <= i < |a| ::
               GroupOfEntry(a[i]) == GroupOfEntry(b[i]) && IsSound(gated, a[i]) == IsSound(gated, b[i])
    ensures (exists e | e in a :: GroupOfEntry(e) == key && !IsSound(gated, e)) <==>
            (exists e | e in b :: GroupOfEntry(e) == key && !IsSound(gated, e))
  {
    hide GroupKey, IsSound;
    if exists e | e in a :: GroupOfEntry(e) == key && !IsSound(gated, e) {
      var i :| 0 <= i < |a| && GroupOfEntry(a[i]) == key && !IsSound(gated, a[i]);
      assert b[i] in b;
    }
    if exists e | e in b :: GroupOfEntry(e) == key && !IsSound(gated, e) {
      var i :| 0 <= i < |b| && GroupOfEntry(b[i]) == key && !IsSound(gated, b[i]);
      assert a[i] in a;
    }
  }

  // ----- regenerateManifest -----

  lemma OneMoreIndex(keys: seq<string>, n: nat, key: string)
    requires n < |keys|
    ensures IndexesOf(keys[..n + 1], key) == IndexesOf(keys[..n], key) + if keys[n] == key then [n] else []
    ensures KeysAfter([], keys[..n + 1]) ==
            var before := KeysAfter([], keys[..n]); if keys[n] in before then before else before + [keys[n]]
  {
    assert keys[..n + 1][..n] == keys[..n];
  }

  /** The list under `key`; a missing key has an empty one. */
  function Get<T>(groups: map<string, seq<T>>, key: string): seq<T> { if key in groups then groups[key] else [] }

  /** `x` joins the list under `key`; `order` holds the keys in insertion order. */
  method Push<T>(order: seq<string>, groups: map<string, seq<T>>, key: string, x: T)
    returns (order': seq<string>, groups': map<string, seq<T>>)
    requires forall k :: k in groups <==> k in order
    ensures forall k :: k in groups' <==> k in order'
    ensures order' == if key in order then order else order + [key]
    ensures forall k :: Get(groups', k) == Get(groups, k) + if k == key then [x] else []
  {
    if key in groups {
      order', groups' := order, groups[key := groups[key] + [x]];
    } else {
      order', groups' := order + [key], groups[key := [x]];
    }
  }

  method GroupManifestEntries(manifest: seq<SurfaceEntry>)
    returns (order: seq<string>, groups: map<string, seq<IndexedEntry>>)
    ensures order == KeysAfter([], EntryGroups(manifest))
    ensures forall key :: Get(groups, key) == Entries(manifest, key)
  {
    hide GroupKey, KeysAfter, IndexesOf, Get;
    order, groups := [], map[];
    ghost var keys := EntryGroups(manifest);
    NothingGrouped<IndexedEntry>(keys);
    for i := 0 to |manifest|
      invariant order == KeysAfter([], keys[..i])
      invariant forall key :: key in groups <==> key in order
      invariant forall key :: Get(groups, key) == Indexed(manifest, IndexesOf(keys[..i], key))
    {
      var key := GroupOfEntry(manifest[i]);
      forall other: string
        ensures Indexed(manifest, IndexesOf(keys[..i + 1], other)) ==
                Indexed(manifest, IndexesOf(keys[..i], other))
                + if other == key then [IndexedEntry(i, manifest[i])] else []
      {
        OneMoreIndex(keys, i, other);
      }
      OneMoreIndex(keys, i, key);
      order, groups := Push(order, groups, key, IndexedEntry(i, manifest[i]));
    }
    assert keys[..|manifest|] == keys;
  }

  lemma NothingGrouped<T>(keys: seq<string>)
    ensures KeysAfter([], keys[..0]) == [] && forall key :: IndexesOf(keys[..0], key) == [] && Get<T>(map[], key) == []
  {
  }

  lemma OneMoreHit(hits: seq<SurfaceHit>, n: nat, key: string)
    requires n < |hits|
    ensures InGroup(hits[..n + 1], GroupOfHit, key) ==
            InGroup(hits[..n], GroupOfHit, key) + if GroupOfHit(hits[n]) == key then [hits[n]] else []
  {
    assert hits[..n + 1][..n] == hits[..n];
  }

  lemma NoHits(hits: seq<SurfaceHit>)
    ensures forall key :: InGroup(hits[..0], GroupOfHit, key) == []
  {
  }

  method GroupHitsByKey(hits: seq<SurfaceHit>) returns (order: seq<string>, groups: map<string, seq<SurfaceHit>>)
    ensures order == KeysAfter([], HitGroups(hits))
    ensures forall key :: Get(groups, key) == Hits(hits, key)
  {
    hide GroupKey, KeysAfter, InGroup, Get;
    order, groups := [], map[];
    ghost var keys := HitGroups(hits);
    NothingGrouped<SurfaceHit>(keys);
    NoHits(hits);
    for i := 0 to |hits|
      invariant order == KeysAfter([], keys[..i])
      invariant forall key :: key in groups <==> key in order
      invariant forall key :: Get(groups, key) == InGroup(hits[..i], GroupOfHit, key)
    {
      forall other: string
        ensures InGroup(hits[..i + 1], GroupOfHit, other) ==
                InGroup(hits[..i], GroupOfHit, other) + if other == GroupOfHit(hits[i]) then [hits[i]] else []
      {
        OneMoreHit(hits, i, other);
      }
      OneMoreIndex(keys, i, GroupOfHit(hits[i]));
      order, groups := Push(order, groups, GroupOfHit(hits[i]), hits[i]);
    }
    assert keys[..|hits|] == keys && hits[..|hits|] == hits;
    groups := SortGroups(groups);
  }

  function SortGroups(groups: map<string, seq<SurfaceHit>>): (sorted: map<string, seq<SurfaceHit>>)
    ensures forall key :: Get(sorted, key) == Sort(Get(groups, key), LineLess)
  {
    assert Sort([], LineLess) == [];
    map key | key in groups :: Sort(groups[key], LineLess)
  }

  datatype MatchedGroup = MatchedGroup(key: string, updates: seq<LineUpdate>)

  function GroupsOf(manifest: seq<SurfaceEntry>, hits: seq<SurfaceHit>, keys: seq<string>): (r: seq<MatchedGroup>)
    ensures |r| == |keys|
    ensures forall k | 0 <= k < |keys| :: r[k] == MatchedGroup(keys[k], GroupUpdates(manifest, hits, keys[k]))
  {
    seq(|keys|, k requires 0 <= k < |keys| => MatchedGroup(keys[k], GroupUpdates(manifest, hits, keys[k])))
  }

  function FlatUpdates(groups: seq<MatchedGroup>): seq<LineUpdate> {
    if groups == [] then [] else FlatUpdates(groups[..|groups| - 1]) + groups[|groups| - 1].updates
  }

  lemma {:induction false} FlatIsAll(manifest: seq<SurfaceEntry>, hits: seq<SurfaceHit>, keys: seq<string>)
    ensures FlatUpdates(GroupsOf(manifest, hits, keys)) == AllUpdates(manifest, hits, keys)
  {
    hide GroupUpdates;
    if keys != [] {
      var front := keys[..|keys| - 1];
      FlatIsAll(manifest, hits, front);
      assert GroupsOf(manifest, hits, keys)[..|keys| - 1] == GroupsOf(manifest, hits, front);
    }
  }

  lemma OneMoreKept(keys: seq<string>, n: nat, keep: string -> bool)
    requires n < |keys|
    ensures Filtered(keys[..n + 1], keep) == Filtered(keys[..n], keep) + if keep(keys[n]) then [keys[n]] else []
  {
    assert keys[..n + 1][..n] == keys[..n];
  }

  lemma OneMoreOrdinal(updates: seq<LineUpdate>, n: nat)
    requires n < |updates|
    ensures Ordinals(updates[..n + 1]) == Ordinals(updates[..n]) + if IsOrdinal(updates[n]) then [updates[n]] else []
  {
    assert updates[..n + 1][..n] == updates[..n];
  }

  /** Does the group hold a doubtful ordinal pair? */
  method FindMispair(updates: seq<LineUpdate>) returns (found: bool)
    ensures found == HasMispair(updates)
  {
    hide Trim;
    var ordinals := [];
    for k := 0 to |updates|
      invariant ordinals == Ordinals(updates[..k])
    {
      OneMoreOrdinal(updates, k);
      if updates[k].viaOrdinalFallback {
        ordinals := ordinals + [updates[k]];
      }
    }
    assert updates[..|updates|] == updates;
    if |ordinals| < 2 {
      return false;
    }
    for k := 0 to |ordinals|
      invariant forall j | 0 <= j < k :: !IsMispaired(ordinals[j])
    {
      var symbol := Trim(ordinals[k].entrySymbol);
      if symbol == SENTINEL {
        continue;
      }
      if symbol != Trim(ordinals[k].hitText) {
        assert ordinals[k] in ordinals && IsMispaired(ordinals[k]);
        return true;
      }
    }
    return false;
  }

  lemma EntriesHaveOwnIndexes(manifest: seq<SurfaceEntry>, key: string)
    ensures DistinctIndexes(Entries(manifest, key))
  {
  }

  /** Steps 1 to 3: the size guard, and the matching of every group that passes it. */
  method MatchGroups(manifest: seq<SurfaceEntry>, hits: seq<SurfaceHit>)
    returns (groups: seq<MatchedGroup>, mismatches: int)
    ensures groups == GroupsOf(manifest, hits, MatchedKeys(manifest, hits))
    ensures mismatches == |Filtered(AllKeys(manifest, hits), Mismatch(manifest, hits))|
  {
    hide KeysAfter, Filtered, Entries, Hits, GroupUpdates, HitGroups, EntryGroups;
    var entryOrder, entryGroups := GroupManifestEntries(manifest);
    var hitOrder, hitGroups := GroupHitsByKey(hits);
    var allKeys := KeysAfter(entryOrder, hitOrder);
    groups, mismatches := [], 0;
    NothingKept(allKeys, manifest, hits);
    for n := 0 to |allKeys|
      invariant groups == GroupsOf(manifest, hits, Filtered(allKeys[..n], ToMatch(manifest, hits)))
      invariant mismatches == |Filtered(allKeys[..n], Mismatch(manifest, hits))|
    {
      var key := allKeys[n];
      OneMoreKept(allKeys, n, ToMatch(manifest, hits));
      OneMoreKept(allKeys, n, Mismatch(manifest, hits));
      var entries, groupHits := Get(entryGroups, key), Get(hitGroups, key);
      if |entries| != |groupHits| {
        mismatches := mismatches + 1;
        continue;
      }
      if |entries| == 0 {
        continue;
      }
      EntriesHaveOwnIndexes(manifest, key);
      var updates := MatchGroup(entries, groupHits);
      SameUpdatesAsGroup(manifest, hits, key);
      groups := groups + [MatchedGroup(key, updates)];
    }
    assert allKeys[..|allKeys|] == allKeys;
  }

  lemma SameUpdatesAsGroup(manifest: seq<SurfaceEntry>, hits: seq<SurfaceHit>, key: string)
    ensures Updates(Entries(manifest, key), Hits(hits, key)) == GroupUpdates(manifest, hits, key)
  {
  }

  lemma NothingKept(keys: seq<string>, manifest: seq<SurfaceEntry>, hits: seq<SurfaceHit>)
    ensures Filtered(keys[..0], ToMatch(manifest, hits)) == [] && Filtered(keys[..0], Mismatch(manifest, hits)) == []
  {
  }

  /** Step 4: the groups that pass both self-checks against the candidate manifest. */
  method KeepVerified(gated: string -> bool, manifest: seq<SurfaceEntry>, hits: seq<SurfaceHit>, groups: seq<MatchedGroup>)
    returns (clean: seq<MatchedGroup>)
    requires groups == GroupsOf(manifest, hits, MatchedKeys(manifest, hits))
    ensures clean == GroupsOf(manifest, hits, CleanKeys(gated, manifest, hits))
  {
    hide MatchedKeys, Filtered, GroupUpdates, HasMispair, GroupFails, ApplyLineUpdates, GroupKey, GroupOfFailure, FlatUpdates;
    ghost var keys := MatchedKeys(manifest, hits);
    ghost var verified := IsVerified(gated, manifest, hits);
    FlatIsAll(manifest, hits, keys);
    var candidate := ApplyLineUpdates(manifest, FlatUpdates(groups));
    var failures := DiffManifestAgainstHits(gated, hits, candidate);
    var failingKeys := set f | f in failures :: GroupOfFailure(f);
    clean := [];
    NoneKept(keys, verified);
    for n := 0 to |groups|
      invariant clean == GroupsOf(manifest, hits, Filtered(keys[..n], verified))
    {
      OneMoreKept(keys, n, verified);
      DiffFails(gated, hits, candidate, groups[n].key);
      var mispaired := FindMispair(groups[n].updates);
      if groups[n].key !in failingKeys && !mispaired {
        clean := clean + [groups[n]];
      }
    }
    assert keys[..|groups|] == keys;
  }

  lemma NoneKept(keys: seq<string>, keep: string -> bool)
    ensures Filtered(keys[..0], keep) == []
  {
  }

  lemma {:induction false} OneMoreChange(manifest: seq<SurfaceEntry>, updates: seq<LineUpdate>, n: nat)
    requires n < |updates|
    ensures ChangesOf(manifest, updates[..n + 1]) ==
            ChangesOf(manifest, updates[..n])
            + if updates[n].index >= |manifest| || updates[n].line == manifest[updates[n].index].line then []
              else [Change(manifest[updates[n].index].path, manifest[updates[n].index].rule,
                           manifest[updates[n].index].line, updates[n].line)]
  {
    assert updates[..n + 1][..n] == updates[..n];
  }

  method ComputeChanges(manifest: seq<SurfaceEntry>, updates: seq<LineUpdate>) returns (changes: seq<Change>)
    ensures changes == ChangesOf(manifest, updates)
  {
    hide ChangesOf;
    changes := [];
    NoChange(manifest, updates);
    for n := 0 to |updates|
      invariant changes == ChangesOf(manifest, updates[..n])
    {
      OneMoreChange(manifest, updates, n);
      var u := updates[n];
      if u.index < |manifest| && u.line != manifest[u.index].line {
        var original := manifest[u.index];
        changes := changes + [Change(original.path, original.rule, original.line, u.line)];
      }
    }
    assert updates[..|updates|] == updates;
  }

  lemma NoChange(manifest: seq<SurfaceEntry>, updates: seq<LineUpdate>)
    ensures ChangesOf(manifest, updates[..0]) == []
  {
  }

  method RegenerateManifest(gated: string -> bool, manifest: seq<SurfaceEntry>, hits: seq<SurfaceHit>)
    returns (result: Result)
    ensures result == Regenerated(gated, manifest, hits)
  {
    hide MatchedKeys, CleanKeys, AllUpdates, FlatUpdates, ApplyLineUpdates, ChangesOf, Filtered;
    var groups, mismatches := MatchGroups(manifest, hits);
    var clean := KeepVerified(gated, manifest, hits, groups);
    FlatIsAll(manifest, hits, CleanKeys(gated, manifest, hits));
    var updates := FlatUpdates(clean);
    var changes := ComputeChanges(manifest, updates);
    result := Result(ApplyLineUpdates(manifest, updates), changes, mismatches + (|groups| - |clean|));
  }
}
