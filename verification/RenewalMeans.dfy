/** What the renewal checks accept, told over the journal's rows and the claims of the two images. */
module RenewalMeans {
  import opened Option
  import opened Json
  import opened Listing
  import opened Renewal

  // ------------------------------------------------------------- the journal

  /** How often a journal places a path. */
  function Placements(journal: seq<JournalRow>, p: string): nat {
    if journal == [] then 0
    else
      (match journal[0].renewal
       case Some(RenewalRow(_, _, _, _, Some(offered), _)) => multiset(offered.placed)[p]
       case _ => 0)
      + Placements(journal[1..], p)
  }

  /** The claims a journal counts as renewed. */
  function Counted(journal: seq<JournalRow>): int {
    if journal == [] then 0
    else (if journal[0].renewal.Some? then journal[0].renewal.value.renewedClaims else 0) + Counted(journal[1..])
  }

  /** A renewal of this identity and this launch: it saw everything, was applied, left nothing unresolved, and
      spells each path as this run spells the place it names. */
  ghost predicate IsThisRuns(row: JournalRow, id: Identity, generation: string, native: Native) {
    && row.identity == Some(id) && row.renewal.Some?
    && var v := row.renewal.value;
       && v.generation == generation && v.unresolved == []
       && v.coverage == Obj(map["state" := Str("observed")]) && v.result == Obj(map["state" := Str("applied")])
       && v.offered.Some? && |v.offered.value.paths| == |v.offered.value.placed|
       && forall k | 0 <= k < |v.offered.value.placed| :: v.offered.value.paths[k] == native(v.offered.value.placed[k])
  }

  /** The row is a renewal that places the whole group. */
  ghost predicate PlacesGroup(row: JournalRow, group: seq<string>) {
    && row.renewal.Some? && row.renewal.value.offered.Some?
    && forall p | p in group :: p in row.renewal.value.offered.value.placed
  }

  lemma RowFitsIsThisRuns(row: JournalRow, id: Identity, generation: string, native: Native)
    requires row.renewal.Some?
    ensures RowFits(row, id, generation, native) <==> IsThisRuns(row, id, generation, native)
  {
    if IsThisRuns(row, id, generation, native) {
      var offered := row.renewal.value.offered.value;
      assert offered.paths == Spelled(offered.placed, native);
    }
  }

  lemma {:induction false} RowsAreTheJournals(journal: seq<JournalRow>, row: JournalRow)
    ensures row in RenewalRows(journal) <==> row in journal && row.renewal.Some?
  {
    if journal != [] {
      RowsAreTheJournals(journal[1..], row);
      assert journal == [journal[0]] + journal[1..];
    }
  }

  lemma AllFitMeans(journal: seq<JournalRow>, id: Identity, generation: string, native: Native)
    ensures AllFit(RenewalRows(journal), id, generation, native) <==>
            forall i | 0 <= i < |journal| && journal[i].renewal.Some? :: IsThisRuns(journal[i], id, generation, native)
  {
    hide RowFits, IsThisRuns, RenewalRows;
    var rows := RenewalRows(journal);
    forall i | 0 <= i < |journal| && journal[i].renewal.Some?
      ensures journal[i] in rows && (RowFits(journal[i], id, generation, native) <==> IsThisRuns(journal[i], id, generation, native))
    {
      RowsAreTheJournals(journal, journal[i]);
      RowFitsIsThisRuns(journal[i], id, generation, native);
    }
    forall row | row in rows ensures row in journal && row.renewal.Some? {
      RowsAreTheJournals(journal, row);
    }
  }

  lemma {:induction false} FlatCounts(journal: seq<JournalRow>, p: string)
    ensures multiset(Flat(RenewalRows(journal)))[p] == Placements(journal, p)
  {
    if journal != [] {
      FlatCounts(journal[1..], p);
      var rest := RenewalRows(journal[1..]);
      if journal[0].renewal.Some? {
        assert RenewalRows(journal) == [journal[0]] + rest && ([journal[0]] + rest)[1..] == rest;
        assert multiset(PlacedBy(journal[0]) + Flat(rest)) == multiset(PlacedBy(journal[0])) + multiset(Flat(rest));
      } else {
        assert [] + rest == rest;
      }
    }
  }

  lemma {:induction false} TotalIsCounted(journal: seq<JournalRow>)
    ensures Total(RenewalRows(journal)) == Counted(journal)
  {
    if journal != [] {
      TotalIsCounted(journal[1..]);
      var rest := RenewalRows(journal[1..]);
      if journal[0].renewal.Some? {
        assert RenewalRows(journal) == [journal[0]] + rest && ([journal[0]] + rest)[1..] == rest;
      } else {
        assert [] + rest == rest;
      }
    }
  }

  lemma GroupIsPlaced(journal: seq<JournalRow>, group: seq<string>)
    requires forall i | 0 <= i < |journal| && journal[i].renewal.Some? :: journal[i].renewal.value.offered.Some?
    ensures (exists row | row in RenewalRows(journal) :: Whole(group, row)) <==>
            exists i | 0 <= i < |journal| :: PlacesGroup(journal[i], group)
  {
    hide RenewalRows;
    var rows := RenewalRows(journal);
    if exists row | row in rows :: Whole(group, row) {
      var row :| row in rows && Whole(group, row);
      RowsAreTheJournals(journal, row);
      var i :| 0 <= i < |journal| && journal[i] == row;
      assert PlacesGroup(journal[i], group);
    }
    if exists i | 0 <= i < |journal| :: PlacesGroup(journal[i], group) {
      var i :| 0 <= i < |journal| && PlacesGroup(journal[i], group);
      RowsAreTheJournals(journal, journal[i]);
      assert Whole(group, journal[i]);
    }
  }

  /** A journal is accepted exactly when each of its renewal rows is this run's, each path is placed as often
      as the suite placed it, each group is placed whole by some row, and the rows count the renewed claims. */
  lemma AcceptedJournal(journal: seq<JournalRow>, id: Identity, generation: string, placed: seq<string>, renewed: int,
                        together: seq<seq<string>>, native: Native)
    ensures Applied(journal, id, generation, placed, renewed, together, native) <==>
            && (forall i | 0 <= i < |journal| && journal[i].renewal.Some? :: IsThisRuns(journal[i], id, generation, native))
            && (forall p :: Placements(journal, p) == multiset(placed)[p])
            && (forall group | group in together :: exists i | 0 <= i < |journal| :: PlacesGroup(journal[i], group))
            && Counted(journal) == renewed
  {
    hide RenewalRows, AllFit, Flat, Total, Whole, IsThisRuns, PlacesGroup, Placements, Counted;
    AllFitMeans(journal, id, generation, native);
    forall p ensures multiset(Flat(RenewalRows(journal)))[p] == Placements(journal, p) {
      FlatCounts(journal, p);
    }
    TotalIsCounted(journal);
    if forall i | 0 <= i < |journal| && journal[i].renewal.Some? :: IsThisRuns(journal[i], id, generation, native) {
      RunsRowsOffer(journal, id, generation, native);
      forall group | group in together
        ensures (exists row | row in RenewalRows(journal) :: Whole(group, row)) <==>
                exists i | 0 <= i < |journal| :: PlacesGroup(journal[i], group)
      {
        GroupIsPlaced(journal, group);
      }
    }
    if forall p :: Placements(journal, p) == multiset(placed)[p] {
      assert multiset(Flat(RenewalRows(journal))) == multiset(placed);
    }
  }

  lemma RunsRowsOffer(journal: seq<JournalRow>, id: Identity, generation: string, native: Native)
    requires forall i | 0 <= i < |journal| && journal[i].renewal.Some? :: IsThisRuns(journal[i], id, generation, native)
    ensures forall i | 0 <= i < |journal| && journal[i].renewal.Some? :: journal[i].renewal.value.offered.Some?
  {}

  // -------------------------------------------------------------- the receipt

  /** The listed renewals are those of the journal's rows that hold one, in the journal's order. */
  ghost predicate Reports(listed: seq<RenewalRow>, journal: seq<JournalRow>) {
    exists at: seq<nat> :: Ascending(at) && ListedAt(listed, journal, at)
  }

  ghost predicate ListedAt(listed: seq<RenewalRow>, journal: seq<JournalRow>, at: seq<nat>) {
    && (forall i: int :: i in at <==> 0 <= i < |journal| && journal[i].renewal.Some?)
    && |listed| == |at| && forall k | 0 <= k < |at| :: at[k] < |journal| && journal[at[k]].renewal == Some(listed[k])
  }

  function HoldsRenewal(): JournalRow -> bool { (v: JournalRow) => v.renewal.Some? }

  /** The listed renewals stand in the journal at these positions, the first counted as `base`. */
  ghost predicate StandAt(listed: seq<RenewalRow>, journal: seq<JournalRow>, at: seq<nat>, base: nat) {
    && |listed| == |at|
    && forall k | 0 <= k < |at| :: base <= at[k] < base + |journal| && journal[at[k] - base].renewal == Some(listed[k])
  }

  lemma {:induction false} RowsOfStand(journal: seq<JournalRow>, base: nat)
    ensures StandAt(RowsOf(RenewalRows(journal)), journal, Where(journal, HoldsRenewal(), base), base)
  {
    hide StandAt;
    if journal == [] {
      NoneStand(base);
    } else {
      RowsOfStand(journal[1..], base + 1);
      var listed := RowsOf(RenewalRows(journal[1..]));
      OneMoreStands(listed, journal, Where(journal[1..], HoldsRenewal(), base + 1), base);
      OneMoreIsListed(journal);
    }
  }

  lemma OneMoreIsListed(journal: seq<JournalRow>)
    requires journal != []
    ensures RowsOf(RenewalRows(journal)) ==
            (if journal[0].renewal.Some? then [journal[0].renewal.value] else []) + RowsOf(RenewalRows(journal[1..]))
  {
    var rest := RenewalRows(journal[1..]);
    if journal[0].renewal.Some? {
      assert RenewalRows(journal) == [journal[0]] + rest && ([journal[0]] + rest)[1..] == rest;
    } else {
      assert RenewalRows(journal) == [] + rest == rest;
    }
  }

  lemma NoneStand(base: nat)
    ensures StandAt([], [], [], base)
  {}

  lemma OneMoreStands(listed: seq<RenewalRow>, journal: seq<JournalRow>, at: seq<nat>, base: nat)
    requires journal != [] && StandAt(listed, journal[1..], at, base + 1)
    ensures var first := journal[0].renewal;
            StandAt((if first.Some? then [first.value] else []) + listed, journal, (if first.Some? then [base] else []) + at, base)
  {
    forall k | 0 <= k < |at| ensures journal[at[k] - base].renewal == Some(listed[k]) {
      assert journal[1..][at[k] - base - 1] == journal[at[k] - base];
    }
  }

  /** The receipt's record is exactly the two images' renewed times and the journal's renewals. */
  lemma ReceiptIsTheEvidence(r: Receipt, before: Image, after: Image, journal: seq<JournalRow>)
    ensures ReceiptMatches(r, before, after, journal) <==>
            && r.before.Keys == before.claims.Keys && (forall s | s in before.claims :: r.before[s] == before.claims[s].renewed)
            && r.after.Keys == after.claims.Keys && (forall s | s in after.claims :: r.after[s] == after.claims[s].renewed)
            && Reports(r.journal, journal)
  {
    hide RenewedMap, RowsOf, RenewalRows, Where;
    RenewedMapHolds(before);
    RenewedMapHolds(after);
    var at := Where(journal, HoldsRenewal(), 0);
    WhereIsExact(journal, HoldsRenewal(), 0);
    RowsOfStand(journal, 0);
    var listed := RowsOf(RenewalRows(journal));
    assert forall i: int :: i in at <==> 0 <= i < |journal| && journal[i].renewal.Some?;
    assert ListedAt(listed, journal, at);
    if Reports(r.journal, journal) {
      var other: seq<nat> :| Ascending(other) && ListedAt(r.journal, journal, other);
      AscendingIsOne(at, other);
      assert r.journal == listed;
    }
  }

  // --------------------------------------------------------------- the claims

  /** The image holds exactly the expected claims: each of its one scope, the worker's as the captured session
      and incarnation, any other of another session. */
  ghost predicate HoldsExpected(image: Image, id: Identity, expected: Expected) {
    && (forall slug :: slug in image.claims <==> slug in expected)
    && forall slug | slug in expected && slug in image.claims ::
         var v, (scope, mine) := image.claims[slug], expected[slug];
         && |v.scopes| == 1 && v.scopes[0] == scope
         && if mine then v.session == id.session && v.incarnation == id.incarnation else v.session != id.session
  }

  lemma BoundMeans(image: Image, id: Identity, expected: Expected)
    ensures BoundIn(image, id, expected) <==> HoldsExpected(image, id, expected)
  {
    if HoldsExpected(image, id, expected) {
      assert image.claims.Keys == expected.Keys;
      forall slug | slug in expected ensures image.claims[slug].scopes == [expected[slug].0] {
        assert slug in image.claims;
      }
    }
  }

  /** The images are bound exactly when both hold the expected claims, each created once. */
  lemma ClaimsBoundMeans(before: Image, after: Image, id: Identity, expected: Expected)
    ensures ClaimsBound(before, after, id, expected) <==>
            && HoldsExpected(before, id, expected) && HoldsExpected(after, id, expected)
            && forall s | s in expected && s in before.claims && s in after.claims :: before.claims[s].created == after.claims[s].created
  {
    hide BoundIn;
    BoundMeans(before, id, expected);
    BoundMeans(after, id, expected);
  }

  /** Between bound images, with a suite's two lists, the moves are accepted exactly when the worker went idle,
      each claim written under was renewed later and not past that, and every other claim not at all. */
  lemma MovesMean(before: Image, after: Image, id: Identity, expected: Expected,
                  moved: seq<string>, still: seq<string>, placed: seq<string>)
    requires ClaimsBound(before, after, id, expected) && SuiteLists(expected, moved, still, placed)
    requires forall s | s in moved :: s !in still
    ensures before.claims.Keys == after.claims.Keys == expected.Keys
    ensures MovedIn(before, after, id, moved) && UnmovedIn(before, after, still) <==>
            && (id.session, id.incarnation) in after.idle
            && forall s | s in expected ::
                 if exists p | p in placed :: p == expected[s].0 || expected[s].0 + "/" <= p
                 then before.claims[s].renewed < after.claims[s].renewed <= after.idle[(id.session, id.incarnation)]
                 else before.claims[s].renewed == after.claims[s].renewed
  {
    hide SuiteLists;
    ExpectedAreClaims(before, after, id, expected);
    DisjointScopesDecide(expected, moved, still, placed);
    forall s | s in expected
      ensures s in moved <==> exists p | p in placed :: p == expected[s].0 || expected[s].0 + "/" <= p
    {
      assert s in moved <==> Written(expected[s].0, placed);
    }
  }

  // ----------------------------------------------------------------- batching

  /** Any two rows of this run can be joined, and the joined row is this run's. */
  lemma RunsRowsJoin(a: JournalRow, b: JournalRow, id: Identity, generation: string, native: Native)
    requires IsThisRuns(a, id, generation, native) && IsThisRuns(b, id, generation, native)
    ensures Mergeable(a, b) && IsThisRuns(Merge(a, b), id, generation, native)
  {
    var x, y := a.renewal.value.offered.value, b.renewal.value.offered.value;
    forall k | 0 <= k < |x.placed + y.placed| ensures (x.paths + y.paths)[k] == native((x.placed + y.placed)[k]) {
      if k >= |x.placed| {
        assert (x.paths + y.paths)[k] == y.paths[k - |x.placed|] && (x.placed + y.placed)[k] == y.placed[k - |x.placed|];
      }
    }
  }

  /** Joining onto a row from the right does not change what can be joined from the left. */
  lemma {:induction false} FirstJoinsAlike(rows: seq<JournalRow>, x: JournalRow)
    requires rows != []
    ensures Coalesced(rows) != [] && (Mergeable(x, Coalesced(rows)[0]) <==> Mergeable(x, rows[0]))
    decreases |rows|
  {
    if |rows| >= 2 && Mergeable(rows[0], rows[1]) {
      FirstJoinsAlike([Merge(rows[0], rows[1])] + rows[2..], x);
    }
  }

  /** Down to the fewest rows: no two neighbours that are left could be joined. */
  lemma {:induction false} NoneAreLeftToJoin(rows: seq<JournalRow>)
    ensures var c := Coalesced(rows); forall i | 0 < i < |c| :: !Mergeable(c[i - 1], c[i])
    decreases |rows|
  {
    hide Mergeable, Merge;
    if |rows| < 2 {
    } else if Mergeable(rows[0], rows[1]) {
      MergeableHaveRenewals(rows[0], rows[1]);
      NoneAreLeftToJoin([Merge(rows[0], rows[1])] + rows[2..]);
      assert Coalesced(rows) == Coalesced([Merge(rows[0], rows[1])] + rows[2..]);
    } else {
      var rest := Coalesced(rows[1..]);
      NoneAreLeftToJoin(rows[1..]);
      FirstJoinsAlike(rows[1..], rows[0]);
      assert forall i | 0 < i <= |rest| :: ([rows[0]] + rest)[i] == rest[i - 1];
    }
  }

  lemma MergeableHaveRenewals(a: JournalRow, b: JournalRow)
    requires Mergeable(a, b)
    ensures a.renewal.Some? && b.renewal.Some? && a.renewal.value.offered.Some? && b.renewal.value.offered.Some?
  {}

  /** The rows the write's check is given are the journal's but the last that holds a renewal. */
  lemma {:induction false} WriteRowsMean(journal: seq<JournalRow>, last: nat)
    requires last < |journal| && journal[last].renewal.Some? && forall j | last < j < |journal| :: journal[j].renewal.None?
    ensures WriteRows(journal) == journal[..last] + journal[last + 1..]
    decreases |journal|
  {
    var n := |journal| - 1;
    if last < n {
      WriteRowsMean(journal[..n], last);
      assert journal[..n][..last] == journal[..last] && journal[last + 1..] == journal[..n][last + 1..] + [journal[n]];
    } else {
      assert journal[last + 1..] == [];
    }
  }
}
