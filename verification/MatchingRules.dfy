/** Which hit an entry of a group is matched to, and why. */
module MatchingRules {
  import opened GroupMatching
  import opened SurfaceManifest
  import opened Text

  /** Entry `j` is in none of the first `n` claims. */
  predicate EntryLeft(claims: seq<Claim>, n: nat, j: nat)
    requires n <= |claims|
  {
    forall i | 0 <= i < n :: claims[i].entry != j
  }

  /** Hit `q` is in none of the first `n` claims. */
  predicate HitLeft(claims: seq<Claim>, n: nat, q: nat)
    requires n <= |claims|
  {
    forall i | 0 <= i < n :: claims[i].hit != q
  }

  /** The claims from `n` on are of entries that suit their hits, entries in order, each the first hit left
      that does. */
  ghost predicate ByRule(entries: seq<IndexedEntry>, hits: seq<SurfaceHit>, ok: Pick, claims: seq<Claim>, n: nat, m: nat) {
    && n <= m <= |claims| && OneToOne(claims, |entries|, |hits|)
    && (forall k | n <= k < m ::
          ok(entries[claims[k].entry].entry, hits[claims[k].hit]) && !claims[k].viaOrdinal)
    && (forall k, l | n <= k < l < m :: claims[k].entry < claims[l].entry)
    && (forall k, q | n <= k < m && 0 <= q < claims[k].hit && HitLeft(claims, k, q) ::
          !ok(entries[claims[k].entry].entry, hits[q]))
  }

  /** No entry from `j` on and hit that the first `m` claims leave suit each other. */
  ghost predicate NoneSuits(entries: seq<IndexedEntry>, hits: seq<SurfaceHit>, ok: Pick, claims: seq<Claim>, m: nat, j: nat)
    requires m <= |claims|
  {
    forall i, q | j <= i < |entries| && 0 <= q < |hits| && EntryLeft(claims, m, i) && HitLeft(claims, m, q) ::
      !ok(entries[i].entry, hits[q])
  }

  lemma LeftIsUnclaimed(claims: seq<Claim>, n: nat, j: nat)
    requires n <= |claims|
    ensures EntryLeft(claims, n, j) <==> !Matched(claims[..n], j)
    ensures HitLeft(claims, n, j) <==> !Taken(claims[..n], j)
  {
    forall i | 0 <= i < n
      ensures claims[i] in claims[..n]
    {
      assert claims[..n][i] == claims[i];
    }
  }

  /** One entry's turn: it claims the first hit left that suits it, or nothing if none does. */
  lemma TurnByRule(entries: seq<IndexedEntry>, hits: seq<SurfaceHit>, ok: Pick, claims: seq<Claim>, j: nat)
    requires j < |entries| && OneToOne(claims, |entries|, |hits|)
    ensures var after := Turn(entries, hits, ok, claims, j);
            && claims <= after && |after| <= |claims| + 1 && OneToOne(after, |entries|, |hits|)
            && (|after| > |claims| ==>
                  var c := after[|claims|];
                  && c.entry == j && !c.viaOrdinal && ok(entries[j].entry, hits[c.hit])
                  && forall q | 0 <= q < c.hit && HitLeft(claims, |claims|, q) :: !ok(entries[j].entry, hits[q]))
            && (|after| == |claims| && EntryLeft(claims, |claims|, j) ==>
                  forall q | 0 <= q < |hits| && HitLeft(claims, |claims|, q) :: !ok(entries[j].entry, hits[q]))
  {
    hide Matched, Taken;
    TurnIsOneToOne(entries, hits, ok, claims, j);
    assert claims[..|claims|] == claims;
    LeftIsUnclaimed(claims, |claims|, j);
    forall q: nat
      ensures HitLeft(claims, |claims|, q) <==> !Taken(claims, q)
    {
      LeftIsUnclaimed(claims, |claims|, q);
    }
  }

  lemma {:induction false} PassByRule(entries: seq<IndexedEntry>, hits: seq<SurfaceHit>, ok: Pick, claims: seq<Claim>,
                                      n: nat, j: nat)
    requires j <= |entries| && ByRule(entries, hits, ok, claims, n, |claims|)
    requires forall k | n <= k < |claims| :: claims[k].entry < j
    ensures var after := Pass(entries, hits, ok, claims, j);
            && claims <= after && ByRule(entries, hits, ok, after, n, |after|)
            && NoneSuits(entries, hits, ok, after, |after|, j)
    decreases |entries| - j
  {
    hide Turn, EntryLeft, HitLeft;
    if j < |entries| {
      TurnByRule(entries, hits, ok, claims, j);
      var next := Turn(entries, hits, ok, claims, j);
      StaysByRule(entries, hits, ok, claims, next, n, j);
      PassByRule(entries, hits, ok, next, n, j + 1);
      StillNone(entries, hits, ok, claims, next, Pass(entries, hits, ok, next, j + 1), j);
    }
  }

  lemma SameLeft(claims: seq<Claim>, after: seq<Claim>, k: nat, q: nat)
    requires k <= |claims| && claims <= after
    ensures HitLeft(after, k, q) == HitLeft(claims, k, q) && EntryLeft(after, k, q) == EntryLeft(claims, k, q)
  {
    assert forall i | 0 <= i < k :: after[i] == claims[i];
  }

  lemma StaysByRule(entries: seq<IndexedEntry>, hits: seq<SurfaceHit>, ok: Pick, claims: seq<Claim>, after: seq<Claim>,
                    n: nat, j: nat)
    requires j < |entries| && ByRule(entries, hits, ok, claims, n, |claims|)
    requires forall k | n <= k < |claims| :: claims[k].entry < j
    requires claims <= after && |after| <= |claims| + 1 && OneToOne(after, |entries|, |hits|)
    requires |after| > |claims| ==>
               var c := after[|claims|];
               && c.entry == j && !c.viaOrdinal && ok(entries[j].entry, hits[c.hit])
               && forall q | 0 <= q < c.hit && HitLeft(claims, |claims|, q) :: !ok(entries[j].entry, hits[q])
    ensures ByRule(entries, hits, ok, after, n, |after|)
    ensures forall k | n <= k < |after| :: after[k].entry < j + 1
  {
    hide HitLeft;
    forall k, q | n <= k < |after| && 0 <= q < after[k].hit && HitLeft(after, k, q)
      ensures !ok(entries[after[k].entry].entry, hits[q])
    {
      SameLeft(claims, after, k, q);
    }
  }

  /** What the turn of entry `j` leaves does not suit it, and less is left later. */
  lemma StillNone(entries: seq<IndexedEntry>, hits: seq<SurfaceHit>, ok: Pick, claims: seq<Claim>, next: seq<Claim>,
                  after: seq<Claim>, j: nat)
    requires j < |entries| && claims <= next <= after && NoneSuits(entries, hits, ok, after, |after|, j + 1)
    requires |next| > |claims| ==> next[|claims|].entry == j
    requires |next| == |claims| && EntryLeft(claims, |claims|, j) ==>
               forall q | 0 <= q < |hits| && HitLeft(claims, |claims|, q) :: !ok(entries[j].entry, hits[q])
    ensures NoneSuits(entries, hits, ok, after, |after|, j)
  {
    forall i, q | j <= i < |entries| && 0 <= q < |hits| && EntryLeft(after, |after|, i) && HitLeft(after, |after|, q)
      ensures !ok(entries[i].entry, hits[q])
    {
      if i == j {
        SameLeft(claims, after, |claims|, q);
        SameLeft(claims, after, |claims|, j);
      }
    }
  }

  /** What is left is paired in order, and marked. */
  ghost predicate Ordinal(claims: seq<Claim>, t: nat) {
    && t <= |claims|
    && (forall k | t <= k < |claims| :: claims[k].viaOrdinal && EntryLeft(claims, t, claims[k].entry)
                                        && HitLeft(claims, t, claims[k].hit))
    && (forall k, m | t <= k < m < |claims| :: claims[k].entry < claims[m].entry && claims[k].hit < claims[m].hit)
  }

  /** The matching of a group. The first `l` claims are of hits on their entry's line; those up to `t` of
      hits that bear the entry's symbol; the rest are pairs in order, marked as such. Each rule takes the
      entries in order and the first hit left, and a later rule only gets what the earlier ones leave: no
      entry and hit left by the first are on one line, and none left by the second bear one text. */
  lemma MatchedByRules(entries: seq<IndexedEntry>, hits: seq<SurfaceHit>) returns (l: nat, t: nat)
    ensures var claims := Matching(entries, hits);
            && l <= t <= |claims|
            && (forall k | 0 <= k < |claims| :: claims[k].entry < |entries| && claims[k].hit < |hits|)
            && (forall k | 0 <= k < l ::
                  hits[claims[k].hit].line == entries[claims[k].entry].entry.line && !claims[k].viaOrdinal)
            && (forall k | l <= k < t ::
                  hits[claims[k].hit].text == entries[claims[k].entry].entry.symbol && !claims[k].viaOrdinal)
            && Ordinal(claims, t)
    ensures var claims := Matching(entries, hits);
            && (forall j, q | 0 <= j < |entries| && 0 <= q < |hits| && EntryLeft(claims, l, j) && HitLeft(claims, l, q) ::
                  hits[q].line != entries[j].entry.line)
            && (forall j, q | 0 <= j < |entries| && 0 <= q < |hits| && EntryLeft(claims, t, j) && HitLeft(claims, t, q) ::
                  hits[q].text != entries[j].entry.symbol)
    ensures var claims := Matching(entries, hits);
            && (forall k, q | 0 <= k < l && 0 <= q < claims[k].hit && HitLeft(claims, k, q) ::
                  hits[q].line != entries[claims[k].entry].entry.line)
            && (forall k, q | l <= k < t && 0 <= q < claims[k].hit && HitLeft(claims, k, q) ::
                  hits[q].text != entries[claims[k].entry].entry.symbol)
  {
    hide EntryLeft, HitLeft, Pass, Unmatched, Untaken, OneToOne;
    InRange(entries, hits);
    var lines, texts, claims := ByLine(entries, hits), ByText(entries, hits), Matching(entries, hits);
    l, t := |lines|, |texts|;
    NothingByRule(entries, hits, SameLine, []);
    PassByRule(entries, hits, SameLine, [], 0, 0);
    NothingByRule(entries, hits, SameText, lines);
    PassByRule(entries, hits, SameText, lines, l, 0);
    assert texts == claims[..t] && texts <= claims && lines <= claims;
    forall k: nat, q: nat | k <= t
      ensures HitLeft(claims, k, q) == HitLeft(texts, k, q) && EntryLeft(claims, k, q) == EntryLeft(texts, k, q)
    {
      SameLeft(texts, claims, k, q);
    }
    forall k: nat, q: nat | k <= l
      ensures HitLeft(claims, k, q) == HitLeft(lines, k, q) && EntryLeft(claims, k, q) == EntryLeft(lines, k, q)
    {
      SameLeft(lines, claims, k, q);
    }
    LeftoversPaired(entries, hits);
  }

  lemma NothingByRule(entries: seq<IndexedEntry>, hits: seq<SurfaceHit>, ok: Pick, claims: seq<Claim>)
    requires claims == [] || OneToOne(claims, |entries|, |hits|)
    ensures ByRule(entries, hits, ok, claims, |claims|, |claims|)
  {
  }

  lemma LeftoversPaired(entries: seq<IndexedEntry>, hits: seq<SurfaceHit>)
    ensures Ordinal(Matching(entries, hits), |ByText(entries, hits)|)
  {
    hide ByText, EntryLeft, HitLeft, Matched, Taken;
    var texts, claims := ByText(entries, hits), Matching(entries, hits);
    var (left, right) := (Unmatched(texts, |entries|), Untaken(texts, |hits|));
    var t := |texts|;
    hide Unmatched, Untaken;
    UnmatchedAre(texts, |entries|);
    UntakenAre(texts, |hits|);
    forall k | t <= k < |claims|
      ensures claims[k] == Claim(left[k - t], right[k - t], true)
      ensures EntryLeft(claims, t, claims[k].entry) && HitLeft(claims, t, claims[k].hit)
    {
      assert claims[..t] == texts;
      assert left[k - t] in left && right[k - t] in right;
      LeftIsUnclaimed(claims, t, left[k - t]);
      LeftIsUnclaimed(claims, t, right[k - t]);
    }
  }

  /** An update says what its claim does: the entry's index and symbol, the hit's line and text, and whether
      the pair is one by order. */
  lemma UpdatesTell(entries: seq<IndexedEntry>, hits: seq<SurfaceHit>, k: nat)
    requires k < |Matching(entries, hits)|
    ensures var (c, u) := (Matching(entries, hits)[k], Updates(entries, hits)[k]);
            && |Updates(entries, hits)| == |Matching(entries, hits)|
            && c.entry < |entries| && c.hit < |hits|
            && u.index == entries[c.entry].index && u.entrySymbol == entries[c.entry].entry.symbol
            && u.line == hits[c.hit].line && u.hitText == hits[c.hit].text
            && u.viaOrdinalFallback == c.viaOrdinal
  {
    hide Matching;
    InRange(entries, hits);
  }
}
