/** Matching the entries of one manifest group to the hits of the same group. */
module GroupMatching {
  import opened Counting
  import opened SurfaceManifest
  import opened Text

  /** An entry with its index in the manifest. */
  datatype IndexedEntry = IndexedEntry(index: nat, entry: SurfaceEntry)

  datatype LineUpdate = LineUpdate(index: nat, line: nat, viaOrdinalFallback: bool, hitText: string, entrySymbol: string)

  /** Entry `entry` of the group takes hit `hit`; both are positions in the group's lists. */
  datatype Claim = Claim(entry: nat, hit: nat, viaOrdinal: bool)

  predicate Matched(claims: seq<Claim>, j: nat) { exists c | c in claims :: c.entry == j }

  predicate Taken(claims: seq<Claim>, p: nat) { exists c | c in claims :: c.hit == p }

  type Pick = (SurfaceEntry, SurfaceHit) -> bool

  predicate SameLine(e: SurfaceEntry, h: SurfaceHit) { h.line == e.line }

  predicate SameText(e: SurfaceEntry, h: SurfaceHit) { h.text == e.symbol }

  /** The first hit from `p` on that is not taken and suits the entry. */
  function FirstFree(hits: seq<SurfaceHit>, claims: seq<Claim>, e: SurfaceEntry, ok: Pick, p: nat): (r: nat)
    requires p <= |hits|
    ensures p <= r <= |hits|
    ensures forall k | p <= k < r :: Taken(claims, k) || !ok(e, hits[k])
    ensures r < |hits| ==> !Taken(claims, r) && ok(e, hits[r])
    decreases |hits| - p
  {
    if p == |hits| || (!Taken(claims, p) && ok(e, hits[p])) then p else FirstFree(hits, claims, e, ok, p + 1)
  }

  /** One entry's turn. */
  function Turn(entries: seq<IndexedEntry>, hits: seq<SurfaceHit>, ok: Pick, claims: seq<Claim>, j: nat): seq<Claim>
    requires j < |entries|
  {
    if Matched(claims, j) then claims
    else
      var p := FirstFree(hits, claims, entries[j].entry, ok, 0);
      if p == |hits| then claims else claims + [Claim(j, p, false)]
  }

  /** The entries from `j` on, in order, each claim the first free hit that suits them. */
  function Pass(entries: seq<IndexedEntry>, hits: seq<SurfaceHit>, ok: Pick, claims: seq<Claim>, j: nat): seq<Claim>
    requires j <= |entries|
    decreases |entries| - j
  {
    if j == |entries| then claims else Pass(entries, hits, ok, Turn(entries, hits, ok, claims, j), j + 1)
  }

  function ByLine(entries: seq<IndexedEntry>, hits: seq<SurfaceHit>): seq<Claim> { Pass(entries, hits, SameLine, [], 0) }

  function ByText(entries: seq<IndexedEntry>, hits: seq<SurfaceHit>): seq<Claim> {
    Pass(entries, hits, SameText, ByLine(entries, hits), 0)
  }

  /** The positions below `n` without the matched entries, ascending. */
  function Unmatched(claims: seq<Claim>, n: nat): seq<nat> {
    if n == 0 then [] else Unmatched(claims, n - 1) + if Matched(claims, n - 1) then [] else [n - 1]
  }

  /** The positions below `n` without the taken hits, ascending. */
  function Untaken(claims: seq<Claim>, n: nat): seq<nat> {
    if n == 0 then [] else Untaken(claims, n - 1) + if Taken(claims, n - 1) then [] else [n - 1]
  }

  /** What is left of both, paired by position. */
  function Paired(left: seq<nat>, right: seq<nat>, n: nat): (r: seq<Claim>)
    requires n <= |left| && n <= |right|
    ensures |r| == n && forall k | 0 <= k < n :: r[k] == Claim(left[k], right[k], true)
  {
    seq(n, k requires 0 <= k < n => Claim(left[k], right[k], true))
  }

  function Min(a: nat, b: nat): nat { if a <= b then a else b }

  function Matching(entries: seq<IndexedEntry>, hits: seq<SurfaceHit>): seq<Claim> {
    var claims := ByText(entries, hits);
    var (left, right) := (Unmatched(claims, |entries|), Untaken(claims, |hits|));
    claims + Paired(left, right, Min(|left|, |right|))
  }

  // ----- every claim is one entry's and one hit's -----

  ghost predicate OneToOne(claims: seq<Claim>, n: nat, m: nat) {
    && (forall k | 0 <= k < |claims| :: claims[k].entry < n && claims[k].hit < m)
    && (forall i, j | 0 <= i < j < |claims| :: claims[i].entry != claims[j].entry && claims[i].hit != claims[j].hit)
  }

  lemma TurnIsOneToOne(entries: seq<IndexedEntry>, hits: seq<SurfaceHit>, ok: Pick, claims: seq<Claim>, j: nat)
    requires j < |entries| && OneToOne(claims, |entries|, |hits|)
    ensures OneToOne(Turn(entries, hits, ok, claims, j), |entries|, |hits|)
    ensures claims <= Turn(entries, hits, ok, claims, j)
  {
  }

  lemma {:induction false} PassIsOneToOne(entries: seq<IndexedEntry>, hits: seq<SurfaceHit>, ok: Pick,
                                          claims: seq<Claim>, j: nat)
    requires j <= |entries| && OneToOne(claims, |entries|, |hits|)
    ensures OneToOne(Pass(entries, hits, ok, claims, j), |entries|, |hits|)
    ensures claims <= Pass(entries, hits, ok, claims, j)
    decreases |entries| - j
  {
    hide OneToOne, Turn;
    if j < |entries| {
      TurnIsOneToOne(entries, hits, ok, claims, j);
      PassIsOneToOne(entries, hits, ok, Turn(entries, hits, ok, claims, j), j + 1);
    }
  }

  ghost predicate Ascending(s: seq<nat>, n: nat) {
    (forall k | 0 <= k < |s| :: s[k] < n) && forall i, j | 0 <= i < j < |s| :: s[i] < s[j]
  }

  lemma {:induction false} UnmatchedAre(claims: seq<Claim>, n: nat)
    ensures Ascending(Unmatched(claims, n), n)
    ensures forall j: nat :: j in Unmatched(claims, n) <==> j < n && !Matched(claims, j)
  {
    if n > 0 {
      UnmatchedAre(claims, n - 1);
    }
  }

  lemma {:induction false} UntakenAre(claims: seq<Claim>, n: nat)
    ensures Ascending(Untaken(claims, n), n)
    ensures forall p: nat :: p in Untaken(claims, n) <==> p < n && !Taken(claims, p)
  {
    if n > 0 {
      UntakenAre(claims, n - 1);
    }
  }

  function EntriesOf(claims: seq<Claim>): (s: seq<nat>)
    ensures |s| == |claims| && forall k | 0 <= k < |s| :: s[k] == claims[k].entry
  {
    seq(|claims|, k requires 0 <= k < |claims| => claims[k].entry)
  }

  function HitsOf(claims: seq<Claim>): (s: seq<nat>)
    ensures |s| == |claims| && forall k | 0 <= k < |s| :: s[k] == claims[k].hit
  {
    seq(|claims|, k requires 0 <= k < |claims| => claims[k].hit)
  }

  lemma SameAsClaims(claims: seq<Claim>)
    ensures forall j: nat :: Matched(claims, j) <==> j in ToSet(EntriesOf(claims))
    ensures forall p: nat :: Taken(claims, p) <==> p in ToSet(HitsOf(claims))
  {
    forall k | 0 <= k < |claims|
      ensures claims[k].entry in EntriesOf(claims) && claims[k].hit in HitsOf(claims)
    {
      assert EntriesOf(claims)[k] == claims[k].entry && HitsOf(claims)[k] == claims[k].hit;
    }
  }

  /** In a group of equal size the two lists left for the last step are equally long. */
  lemma EquallyManyLeft(claims: seq<Claim>, n: nat)
    requires OneToOne(claims, n, n)
    ensures |Unmatched(claims, n)| == |Untaken(claims, n)| == n - |claims|
  {
    UnmatchedAre(claims, n);
    UntakenAre(claims, n);
    CountDistinct(Unmatched(claims, n));
    CountDistinct(Untaken(claims, n));
    CountDistinct(EntriesOf(claims));
    CountDistinct(HitsOf(claims));
    SameAsClaims(claims);
    assert ToSet(Unmatched(claims, n)) == Below(n) - ToSet(EntriesOf(claims));
    assert ToSet(Untaken(claims, n)) == Below(n) - ToSet(HitsOf(claims));
    Complement(ToSet(EntriesOf(claims)), ToSet(Unmatched(claims, n)), n);
    Complement(ToSet(HitsOf(claims)), ToSet(Untaken(claims, n)), n);
  }

  /** In a group of equal size the matching is a bijection: every entry gets exactly one hit, and every
      hit goes to exactly one entry. */
  lemma MatchingIsBijection(entries: seq<IndexedEntry>, hits: seq<SurfaceHit>)
    requires |entries| == |hits|
    ensures var claims := Matching(entries, hits);
            && |claims| == |entries| && OneToOne(claims, |entries|, |hits|)
            && (forall j | 0 <= j < |entries| :: Matched(claims, j))
            && (forall p | 0 <= p < |hits| :: Taken(claims, p))
  {
    var n := |entries|;
    var before, claims := ByText(entries, hits), Matching(entries, hits);
    PassIsOneToOne(entries, hits, SameLine, [], 0);
    PassIsOneToOne(entries, hits, SameText, ByLine(entries, hits), 0);
    EquallyManyLeft(before, n);
    UnmatchedAre(before, n);
    UntakenAre(before, n);
    StillOneToOne(before, Unmatched(before, n), Untaken(before, n), n);
    AllClaimed(claims, n);
  }

  /** `n` distinct numbers below `n` are all of them. */
  lemma AllOf(s: seq<nat>, n: nat)
    requires Distinct(s) && |s| == n && forall k | 0 <= k < |s| :: s[k] < n
    ensures ToSet(s) == Below(n)
  {
    CountDistinct(s);
    FullSet(ToSet(s), n);
  }

  lemma AllClaimed(claims: seq<Claim>, n: nat)
    requires OneToOne(claims, n, n) && |claims| == n
    ensures forall j: nat | j < n :: Matched(claims, j) && Taken(claims, j)
  {
    hide ToSet, Matched, Taken;
    AllOf(EntriesOf(claims), n);
    AllOf(HitsOf(claims), n);
    SameAsClaims(claims);
  }

  lemma StillOneToOne(claims: seq<Claim>, left: seq<nat>, right: seq<nat>, n: nat)
    requires OneToOne(claims, n, n) && Ascending(left, n) && Ascending(right, n) && |left| == |right|
    requires forall j | j in left :: !Matched(claims, j)
    requires forall p | p in right :: !Taken(claims, p)
    ensures OneToOne(claims + Paired(left, right, |left|), n, n)
  {
    var all := claims + Paired(left, right, |left|);
    forall i, j | 0 <= i < j < |all|
      ensures all[i].entry != all[j].entry && all[i].hit != all[j].hit
    {
      if i < |claims| <= j {
        assert left[j - |claims|] in left && right[j - |claims|] in right;
        assert claims[i] in claims;
      }
    }
    assert forall k | 0 <= k < |claims| :: all[k] == claims[k];
  }

  // ----- identity first -----

  /** `mates[i]` is a hit on the line of entry `j + i`, free and no one else's. */
  ghost predicate Mates(entries: seq<IndexedEntry>, hits: seq<SurfaceHit>, claims: seq<Claim>, j: nat, mates: seq<nat>) {
    && j + |mates| == |entries|
    && (forall i | 0 <= i < |mates| ::
          mates[i] < |hits| && !Taken(claims, mates[i]) && SameLine(entries[j + i].entry, hits[mates[i]]))
    && (forall i, k | 0 <= i < k < |mates| :: mates[i] != mates[k])
  }

  /** Every claim so far is an identity, made by the entries in order. */
  ghost predicate Identities(entries: seq<IndexedEntry>, hits: seq<SurfaceHit>, claims: seq<Claim>) {
    forall k | 0 <= k < |claims| ::
      && claims[k].entry == k && k < |entries| && claims[k].hit < |hits| && !claims[k].viaOrdinal
      && hits[claims[k].hit].line == entries[k].entry.line
  }

  /** Taking hit `p` hands its entry's own mate on to whoever `p` was the mate of. */
  function HandOn(mates: seq<nat>, p: nat): (rest: seq<nat>)
    requires mates != []
    ensures |rest| == |mates| - 1
    ensures forall i | 0 <= i < |rest| :: rest[i] == if mates[i + 1] == p then mates[0] else mates[i + 1]
  {
    seq(|mates| - 1, i requires 0 <= i < |mates| - 1 => if mates[i + 1] == p then mates[0] else mates[i + 1])
  }

  lemma TakenAfter(claims: seq<Claim>, c: Claim, q: nat)
    ensures Taken(claims + [c], q) <==> Taken(claims, q) || q == c.hit
  {
    var after := claims + [c];
    assert after[|claims|] == c && forall d | d in claims :: d in after;
  }

  /** The next entry is free to take a hit, and takes one on its own line. */
  lemma TurnTakes(entries: seq<IndexedEntry>, hits: seq<SurfaceHit>, claims: seq<Claim>, mate: nat) returns (p: nat)
    requires |claims| < |entries| && Identities(entries, hits, claims)
    requires mate < |hits| && !Taken(claims, mate) && SameLine(entries[|claims|].entry, hits[mate])
    ensures Turn(entries, hits, SameLine, claims, |claims|) == claims + [Claim(|claims|, p, false)]
    ensures p < |hits| && !Taken(claims, p) && SameLine(entries[|claims|].entry, hits[p])
    ensures Identities(entries, hits, claims + [Claim(|claims|, p, false)])
  {
    hide Taken;
    p := FirstFree(hits, claims, entries[|claims|].entry, SameLine, 0);
  }

  lemma HandedOn(entries: seq<IndexedEntry>, hits: seq<SurfaceHit>, claims: seq<Claim>, c: Claim, mates: seq<nat>)
    requires |claims| < |entries| && Mates(entries, hits, claims, |claims|, mates)
    requires c.hit < |hits| && !Taken(claims, c.hit) && SameLine(entries[|claims|].entry, hits[c.hit])
    ensures Mates(entries, hits, claims + [c], |claims| + 1, HandOn(mates, c.hit))
  {
    hide Taken;
    forall q: nat
      ensures Taken(claims + [c], q) <==> Taken(claims, q) || q == c.hit
    {
      TakenAfter(claims, c, q);
    }
  }

  lemma TurnKeepsMates(entries: seq<IndexedEntry>, hits: seq<SurfaceHit>, claims: seq<Claim>, mates: seq<nat>)
    returns (p: nat)
    requires |claims| < |entries|
    requires Mates(entries, hits, claims, |claims|, mates) && Identities(entries, hits, claims)
    ensures Turn(entries, hits, SameLine, claims, |claims|) == claims + [Claim(|claims|, p, false)]
    ensures Identities(entries, hits, claims + [Claim(|claims|, p, false)])
    ensures Mates(entries, hits, claims + [Claim(|claims|, p, false)], |claims| + 1, HandOn(mates, p))
  {
    hide Taken, Turn, HandOn, Identities;
    p := TurnTakes(entries, hits, claims, mates[0]);
    HandedOn(entries, hits, claims, Claim(|claims|, p, false), mates);
  }

  /** If the entries can be sent one to one to hits on their own lines, the first pass matches them all,
      each to a hit on its own line. */
  lemma {:induction false} IdentityPass(entries: seq<IndexedEntry>, hits: seq<SurfaceHit>, claims: seq<Claim>, mates: seq<nat>)
    requires |claims| <= |entries|
    requires Mates(entries, hits, claims, |claims|, mates) && Identities(entries, hits, claims)
    ensures var all := Pass(entries, hits, SameLine, claims, |claims|);
            |all| == |entries| && Identities(entries, hits, all)
    decreases |entries| - |claims|
  {
    if |claims| < |entries| {
      var p := TurnKeepsMates(entries, hits, claims, mates);
      IdentityPass(entries, hits, claims + [Claim(|claims|, p, false)], HandOn(mates, p));
    }
  }

  lemma {:induction false} AllMatched(entries: seq<IndexedEntry>, hits: seq<SurfaceHit>, ok: Pick, claims: seq<Claim>, j: nat)
    requires j <= |entries| && forall k | 0 <= k < |entries| :: Matched(claims, k)
    ensures Pass(entries, hits, ok, claims, j) == claims
    decreases |entries| - j
  {
    if j < |entries| {
      AllMatched(entries, hits, ok, claims, j + 1);
    }
  }

  lemma {:induction false} NothingLeft(claims: seq<Claim>, n: nat)
    requires forall k | 0 <= k < n :: Matched(claims, k)
    ensures Unmatched(claims, n) == []
  {
    if n > 0 {
      NothingLeft(claims, n - 1);
    }
  }

  /** An entry already on a hit's line is never moved, in a group where every entry is. */
  lemma IdentityMatching(entries: seq<IndexedEntry>, hits: seq<SurfaceHit>, mates: seq<nat>)
    requires Mates(entries, hits, [], 0, mates)
    ensures |Matching(entries, hits)| == |entries| && Identities(entries, hits, Matching(entries, hits))
  {
    IdentityPass(entries, hits, [], mates);
    var claims := ByLine(entries, hits);
    forall k | 0 <= k < |entries|
      ensures Matched(claims, k)
    {
      assert claims[k] in claims;
    }
    AllMatched(entries, hits, SameText, claims, 0);
    NothingLeft(claims, |entries|);
  }

  /** An entry whose line no earlier entry of its group has, and on which there is a hit, stays there. */
  lemma NeverMoved(entries: seq<IndexedEntry>, hits: seq<SurfaceHit>, j: nat) returns (c: Claim)
    requires j < |entries| && exists h | h in hits :: SameLine(entries[j].entry, h)
    requires forall i | 0 <= i < j :: entries[i].entry.line != entries[j].entry.line
    ensures c in Matching(entries, hits) && c.entry == j
    ensures c.hit < |hits| && hits[c.hit].line == entries[j].entry.line
  {
    c := ClaimsOwnLine(entries, hits, [], 0, j);
    PassIsOneToOne(entries, hits, SameLine, [], 0);
    PassIsOneToOne(entries, hits, SameText, ByLine(entries, hits), 0);
    assert c in ByText(entries, hits);
  }

  /** Only entries before `i` have claimed, and none of them a hit on `line`. */
  ghost predicate Elsewhere(hits: seq<SurfaceHit>, claims: seq<Claim>, i: nat, line: nat) {
    OneToOne(claims, i, |hits|) && forall k | 0 <= k < |claims| :: hits[claims[k].hit].line != line
  }

  lemma Widen(claims: seq<Claim>, i: nat, m: nat)
    requires OneToOne(claims, i, m)
    ensures OneToOne(claims, i + 1, m) && !Matched(claims, i)
  {
  }

  lemma OtherTurn(entries: seq<IndexedEntry>, hits: seq<SurfaceHit>, claims: seq<Claim>, i: nat, line: nat)
    requires i < |entries| && entries[i].entry.line != line && Elsewhere(hits, claims, i, line)
    ensures Elsewhere(hits, Turn(entries, hits, SameLine, claims, i), i + 1, line)
  {
    hide Matched, Taken;
    Widen(claims, i, |hits|);
    var p := FirstFree(hits, claims, entries[i].entry, SameLine, 0);
    if p < |hits| {
      OneMoreOneToOne(claims, Claim(i, p, false), i + 1, |hits|);
    }
  }

  lemma {:induction false} ClaimsOwnLine(entries: seq<IndexedEntry>, hits: seq<SurfaceHit>, claims: seq<Claim>, i: nat, j: nat)
    returns (c: Claim)
    requires i <= j < |entries| && exists h | h in hits :: SameLine(entries[j].entry, h)
    requires Elsewhere(hits, claims, i, entries[j].entry.line)
    requires forall k | 0 <= k < j :: entries[k].entry.line != entries[j].entry.line
    ensures c in Pass(entries, hits, SameLine, claims, i) && c.entry == j
    ensures c.hit < |hits| && hits[c.hit].line == entries[j].entry.line
    decreases j - i
  {
    hide Turn, Elsewhere, OneToOne;
    if i < j {
      OtherTurn(entries, hits, claims, i, entries[j].entry.line);
      c := ClaimsOwnLine(entries, hits, Turn(entries, hits, SameLine, claims, i), i + 1, j);
    } else {
      c := OwnTurn(entries, hits, claims, j);
      PassIsOneToOne(entries, hits, SameLine, Turn(entries, hits, SameLine, claims, j), j + 1);
    }
  }

  lemma OwnTurn(entries: seq<IndexedEntry>, hits: seq<SurfaceHit>, claims: seq<Claim>, j: nat) returns (c: Claim)
    requires j < |entries| && exists h | h in hits :: SameLine(entries[j].entry, h)
    requires Elsewhere(hits, claims, j, entries[j].entry.line)
    ensures c in Turn(entries, hits, SameLine, claims, j) && c.entry == j
    ensures OneToOne(Turn(entries, hits, SameLine, claims, j), |entries|, |hits|)
    ensures c.hit < |hits| && hits[c.hit].line == entries[j].entry.line
  {
    var p := FirstFree(hits, claims, entries[j].entry, SameLine, 0);
    assert forall k | 0 <= k < |hits| && SameLine(entries[j].entry, hits[k]) :: !Taken(claims, k);
    c := Claim(j, p, false);
    assert (claims + [c])[|claims|] == c;
  }

  // ----- matchGroup -----

  function UpdateOf(entries: seq<IndexedEntry>, hits: seq<SurfaceHit>, c: Claim): LineUpdate
    requires c.entry < |entries| && c.hit < |hits|
  {
    LineUpdate(entries[c.entry].index, hits[c.hit].line, c.viaOrdinal, hits[c.hit].text, entries[c.entry].entry.symbol)
  }

  function UpdatesOf(entries: seq<IndexedEntry>, hits: seq<SurfaceHit>, claims: seq<Claim>): (updates: seq<LineUpdate>)
    requires forall k | 0 <= k < |claims| :: claims[k].entry < |entries| && claims[k].hit < |hits|
    ensures |updates| == |claims| && forall k | 0 <= k < |claims| :: updates[k] == UpdateOf(entries, hits, claims[k])
  {
    seq(|claims|, k requires 0 <= k < |claims| => UpdateOf(entries, hits, claims[k]))
  }

  lemma InRange(entries: seq<IndexedEntry>, hits: seq<SurfaceHit>)
    ensures OneToOne(ByLine(entries, hits), |entries|, |hits|) && OneToOne(ByText(entries, hits), |entries|, |hits|)
    ensures forall k | 0 <= k < |Matching(entries, hits)| ::
              Matching(entries, hits)[k].entry < |entries| && Matching(entries, hits)[k].hit < |hits|
  {
    PassIsOneToOne(entries, hits, SameLine, [], 0);
    PassIsOneToOne(entries, hits, SameText, ByLine(entries, hits), 0);
    UnmatchedAre(ByText(entries, hits), |entries|);
    UntakenAre(ByText(entries, hits), |hits|);
  }

  /** The updates of a group, in the order they are made. */
  function Updates(entries: seq<IndexedEntry>, hits: seq<SurfaceHit>): seq<LineUpdate> {
    InRange(entries, hits);
    UpdatesOf(entries, hits, Matching(entries, hits))
  }

  ghost predicate DistinctIndexes(entries: seq<IndexedEntry>) {
    forall i, j | 0 <= i < j < |entries| :: entries[i].index != entries[j].index
  }

  /** The loop variables describe `claims`. */
  ghost predicate Tracks(entries: seq<IndexedEntry>, hits: seq<SurfaceHit>, claims: seq<Claim>,
                         claimed: set<nat>, matched: set<nat>, updates: seq<LineUpdate>) {
    && OneToOne(claims, |entries|, |hits|)
    && (forall p: nat :: p in claimed <==> Taken(claims, p))
    && (forall j | 0 <= j < |entries| :: entries[j].index in matched <==> Matched(claims, j))
    && updates == UpdatesOf(entries, hits, claims)
  }

  lemma OneMore(claims: seq<Claim>, c: Claim)
    ensures forall j: nat :: Matched(claims + [c], j) <==> Matched(claims, j) || j == c.entry
    ensures forall p: nat :: Taken(claims + [c], p) <==> Taken(claims, p) || p == c.hit
  {
    var after := claims + [c];
    assert after[|claims|] == c && forall d | d in claims :: d in after;
  }

  lemma OneMoreOneToOne(claims: seq<Claim>, c: Claim, n: nat, m: nat)
    requires OneToOne(claims, n, m) && c.entry < n && c.hit < m && !Matched(claims, c.entry) && !Taken(claims, c.hit)
    ensures OneToOne(claims + [c], n, m)
  {
    assert forall k | 0 <= k < |claims| :: claims[k] in claims;
  }

  lemma OneMoreClaim(entries: seq<IndexedEntry>, hits: seq<SurfaceHit>, claims: seq<Claim>,
                     claimed: set<nat>, matched: set<nat>, updates: seq<LineUpdate>, c: Claim)
    requires DistinctIndexes(entries) && Tracks(entries, hits, claims, claimed, matched, updates)
    requires c.entry < |entries| && c.hit < |hits| && !Matched(claims, c.entry) && !Taken(claims, c.hit)
    ensures Tracks(entries, hits, claims + [c], claimed + {c.hit}, matched + {entries[c.entry].index},
                   updates + [UpdateOf(entries, hits, c)])
  {
    hide Matched, Taken, UpdateOf;
    OneMore(claims, c);
    OneMoreOneToOne(claims, c, |entries|, |hits|);
  }

  lemma Nothing(entries: seq<IndexedEntry>, hits: seq<SurfaceHit>)
    ensures Tracks(entries, hits, [], {}, {}, [])
    ensures forall k | 0 <= k < |entries| :: !Matched([], k)
  {
  }

  /** The entries and the hits no pass has claimed, by position. */
  method Leftover(entries: seq<IndexedEntry>, hits: seq<SurfaceHit>, claimed: set<nat>, matched: set<nat>,
                  ghost claims: seq<Claim>) returns (left: seq<nat>, right: seq<nat>)
    requires forall p: nat :: p in claimed <==> Taken(claims, p)
    requires forall j | 0 <= j < |entries| :: entries[j].index in matched <==> Matched(claims, j)
    ensures left == Unmatched(claims, |entries|) && right == Untaken(claims, |hits|)
  {
    left, right := [], [];
    for j := 0 to |entries|
      invariant left == Unmatched(claims, j)
    {
      if entries[j].index !in matched {
        left := left + [j];
      }
    }
    for p := 0 to |hits|
      invariant right == Untaken(claims, p)
    {
      if p !in claimed {
        right := right + [p];
      }
    }
  }

  /** `findIndex`: the first unclaimed hit that suits the entry, or the number of hits. */
  method FindUnclaimed(hits: seq<SurfaceHit>, claimed: set<nat>, e: SurfaceEntry, ok: Pick, ghost claims: seq<Claim>)
    returns (p: nat)
    requires forall p: nat :: p in claimed <==> Taken(claims, p)
    ensures p == FirstFree(hits, claims, e, ok, 0)
  {
    p := 0;
    while p < |hits| && (p in claimed || !ok(e, hits[p]))
      invariant p <= |hits|
      invariant FirstFree(hits, claims, e, ok, p) == FirstFree(hits, claims, e, ok, 0)
    {
      p := p + 1;
    }
  }

  /** `claimMatch`: entry `j` claims the first unclaimed hit that suits it, if there is one. */
  method ClaimMatch(entries: seq<IndexedEntry>, hits: seq<SurfaceHit>, j: nat, ok: Pick, claimed: set<nat>,
                    matched: set<nat>, updates: seq<LineUpdate>, ghost claims: seq<Claim>)
    returns (claimed': set<nat>, matched': set<nat>, updates': seq<LineUpdate>, ghost claims': seq<Claim>)
    requires DistinctIndexes(entries) && Tracks(entries, hits, claims, claimed, matched, updates)
    requires j < |entries| && !Matched(claims, j)
    ensures Tracks(entries, hits, claims', claimed', matched', updates')
    ensures claims' == Turn(entries, hits, ok, claims, j)
  {
    hide Matched, Taken, OneToOne;
    claimed', matched', updates', claims' := claimed, matched, updates, claims;
    var p := FindUnclaimed(hits, claimed, entries[j].entry, ok, claims);
    if p < |hits| {
      claimed', matched' := claimed + {p}, matched + {entries[j].index};
      updates' := updates + [LineUpdate(entries[j].index, hits[p].line, false, hits[p].text, entries[j].entry.symbol)];
      claims' := claims + [Claim(j, p, false)];
      OneMoreClaim(entries, hits, claims, claimed, matched, updates, Claim(j, p, false));
    }
  }

  lemma TurnMatches(entries: seq<IndexedEntry>, hits: seq<SurfaceHit>, ok: Pick, claims: seq<Claim>, j: nat)
    requires j < |entries| && forall k | j <= k < |entries| :: !Matched(claims, k)
    ensures forall k | j < k < |entries| :: !Matched(Turn(entries, hits, ok, claims, j), k)
  {
    hide Matched;
    OneMore(claims, Claim(j, FirstFree(hits, claims, entries[j].entry, ok, 0), false));
  }

  /** `matchGroup`: identity, then symbol, then ordinal; `claimed` holds hit positions, `matched` entry
      indexes. */
  method MatchGroup(entries: seq<IndexedEntry>, hits: seq<SurfaceHit>) returns (updates: seq<LineUpdate>)
    requires DistinctIndexes(entries)
    ensures updates == Updates(entries, hits)
  {
    hide Turn, Matched, Taken, OneToOne;
    var claimed: set<nat>, matched: set<nat> := {}, {};
    updates := [];
    ghost var claims: seq<Claim> := [];
    Nothing(entries, hits);
    for j := 0 to |entries|
      invariant Tracks(entries, hits, claims, claimed, matched, updates)
      invariant forall k | j <= k < |entries| :: !Matched(claims, k)
      invariant Pass(entries, hits, SameLine, claims, j) == ByLine(entries, hits)
    {
      TurnMatches(entries, hits, SameLine, claims, j);
      claimed, matched, updates, claims := ClaimMatch(entries, hits, j, SameLine, claimed, matched, updates, claims);
    }
    for j := 0 to |entries|
      invariant Tracks(entries, hits, claims, claimed, matched, updates)
      invariant Pass(entries, hits, SameText, claims, j) == ByText(entries, hits)
    {
      if entries[j].index !in matched {
        claimed, matched, updates, claims := ClaimMatch(entries, hits, j, SameText, claimed, matched, updates, claims);
      } else {
        AlreadyMatched(entries, hits, SameText, claims, j);
      }
    }
    var left, right := Leftover(entries, hits, claimed, matched, claims);
    updates := PairUp(entries, hits, updates, left, right, claims);
  }

  lemma AlreadyMatched(entries: seq<IndexedEntry>, hits: seq<SurfaceHit>, ok: Pick, claims: seq<Claim>, j: nat)
    requires j < |entries| && Matched(claims, j)
    ensures Turn(entries, hits, ok, claims, j) == claims
  {
  }

  lemma OneMorePair(entries: seq<IndexedEntry>, hits: seq<SurfaceHit>, left: seq<nat>, right: seq<nat>, k: nat)
    requires k < |left| && k < |right| && Ascending(left, |entries|) && Ascending(right, |hits|)
    ensures UpdatesOf(entries, hits, Paired(left, right, k + 1)) ==
            UpdatesOf(entries, hits, Paired(left, right, k))
            + [UpdateOf(entries, hits, Claim(left[k], right[k], true))]
  {
  }

  lemma UpdatesConcat(entries: seq<IndexedEntry>, hits: seq<SurfaceHit>, a: seq<Claim>, b: seq<Claim>)
    requires forall k | 0 <= k < |a| :: a[k].entry < |entries| && a[k].hit < |hits|
    requires forall k | 0 <= k < |b| :: b[k].entry < |entries| && b[k].hit < |hits|
    ensures UpdatesOf(entries, hits, a + b) == UpdatesOf(entries, hits, a) + UpdatesOf(entries, hits, b)
  {
  }

  /** The ordinal fallback. */
  method PairUp(entries: seq<IndexedEntry>, hits: seq<SurfaceHit>, byRule: seq<LineUpdate>, left: seq<nat>,
                right: seq<nat>, ghost claims: seq<Claim>) returns (updates: seq<LineUpdate>)
    requires claims == ByText(entries, hits) && OneToOne(claims, |entries|, |hits|)
    requires byRule == UpdatesOf(entries, hits, claims)
    requires left == Unmatched(claims, |entries|) && right == Untaken(claims, |hits|)
    ensures updates == Updates(entries, hits)
  {
    hide ByText, Unmatched, Untaken, OneToOne;
    updates := byRule;
    UnmatchedAre(claims, |entries|);
    UntakenAre(claims, |hits|);
    InRange(entries, hits);
    for k := 0 to |left|
      invariant updates == byRule + UpdatesOf(entries, hits, Paired(left, right, Min(k, |right|)))
    {
      if k < |right| {
        var e, h := entries[left[k]], hits[right[k]];
        OneMorePair(entries, hits, left, right, k);
        updates := updates + [LineUpdate(e.index, h.line, true, h.text, e.entry.symbol)];
      }
    }
    UpdatesConcat(entries, hits, claims, Paired(left, right, Min(|left|, |right|)));
  }
}
