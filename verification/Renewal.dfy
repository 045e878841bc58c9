/** Claim-renewal evidence of scripts/check-claude-gate.py. A check that raises is a refusal, as
    `Evidence.check` records it, so each check here is the predicate "returns true". */
module Renewal {
  import opened Option
  import opened Json
  import opened Listing

  // ------------------------------------------------------------------ values

  datatype Identity = Identity(session: string, incarnation: string)

  datatype Claim = Claim(session: string, incarnation: string, created: int, renewed: int, scopes: seq<string>)

  /** One ledger copy: open claims by slug, each session's incarnation and worktree, idle times. */
  datatype Image = Image(
    claims: map<string, Claim>, sessions: map<string, (string, string)>, idle: map<(string, string), int>)

  datatype Offered = Offered(paths: seq<string>, placed: seq<string>)

  datatype RenewalRow = RenewalRow(
    generation: string, coverage: Json, result: Json, unresolved: seq<string>, offered: Option<Offered>, renewedClaims: int)

  /** A journal row: whose it is, and what the checks read of it. */
  datatype JournalRow = JournalRow(identity: Option<Identity>, renewal: Option<RenewalRow>, allowed: Option<string>, idle: bool)

  datatype Receipt = Receipt(before: map<string, int>, after: map<string, int>, journal: seq<RenewalRow>)

  /** `{slug: (scope, owned by the worker)}` */
  type Expected = map<string, (string, bool)>

  // -------------------------------------------------------------- two images

  function Key(id: Identity): (string, string) { (id.session, id.incarnation) }

  function WithIdle(images: seq<Image>, key: (string, string), idle: bool): seq<Image> {
    if images == [] then []
    else (if (key in images[0].idle) == idle then [images[0]] else []) + WithIdle(images[1..], key, idle)
  }

  predicate NamesWorker(image: Image, id: Identity, worktree: string) {
    id.session in image.sessions && image.sessions[id.session] == (id.incarnation, worktree)
  }

  /** `renewal_images` over the copies in the run's root, in name order. */
  function RenewalImages(images: seq<Image>, id: Identity, worktree: string): Result<(Image, Image)> {
    var before, after := WithIdle(images, Key(id), false), WithIdle(images, Key(id), true);
    if |before| != 1 || |after| != 1 then Err
    else if exists image | image in images :: !NamesWorker(image, id, worktree) then Err
    else Ok((before[0], after[0]))
  }

  lemma {:induction false} WithIdleSplits(images: seq<Image>, key: (string, string))
    ensures multiset(WithIdle(images, key, false)) + multiset(WithIdle(images, key, true)) == multiset(images)
  {
    if images == [] {
    } else {
      var rest := images[1..];
      WithIdleSplits(rest, key);
      assert images == [images[0]] + rest;
      FirstIsIn(images, key, key in images[0].idle);
      OthersStay(images, key, key !in images[0].idle);
    }
  }

  lemma FirstIsIn(images: seq<Image>, key: (string, string), idle: bool)
    requires images != [] && (key in images[0].idle) == idle
    ensures multiset(WithIdle(images, key, idle)) == multiset{images[0]} + multiset(WithIdle(images[1..], key, idle))
  {
    var rest := WithIdle(images[1..], key, idle);
    assert WithIdle(images, key, idle) == [images[0]] + rest;
  }

  lemma OthersStay(images: seq<Image>, key: (string, string), idle: bool)
    requires images != [] && (key in images[0].idle) != idle
    ensures WithIdle(images, key, idle) == WithIdle(images[1..], key, idle)
  {}

  lemma {:induction false} WithIdleTells(images: seq<Image>, key: (string, string), idle: bool)
    ensures forall x | x in WithIdle(images, key, idle) :: (key in x.idle) == idle
  {
    if images == [] {
    } else {
      WithIdleTells(images[1..], key, idle);
    }
  }

  lemma PairOrders(images: seq<Image>, x: Image, y: Image)
    requires multiset(images) == multiset{x, y}
    ensures images == [x, y] || images == [y, x]
  {
    assert |images| == |multiset(images)| == 2;
    assert images == [images[0], images[1]];
    assert multiset(images) == multiset{images[0], images[1]};
    assert images[0] in multiset{x, y} && images[1] in multiset{x, y};
    if images[0] == images[1] {
      assert multiset{x, y}[images[0]] == 2;
    }
  }

  /** The choice is exactly one image without the worker's idle row and one with it, both naming the
      worker: so it depends on neither order nor names, and any third image is refused. */
  lemma ImagesArePinned(images: seq<Image>, id: Identity, worktree: string, before: Image, after: Image)
    ensures RenewalImages(images, id, worktree) == Ok((before, after)) <==>
            && multiset(images) == multiset{before, after}
            && (id.session, id.incarnation) !in before.idle && (id.session, id.incarnation) in after.idle
            && forall image | image == before || image == after ::
                 id.session in image.sessions && image.sessions[id.session] == (id.incarnation, worktree)
  {
    hide WithIdle;
    var b, a := WithIdle(images, Key(id), false), WithIdle(images, Key(id), true);
    var key := Key(id);
    IdlePairIsPinned(images, key, before, after);
    if b == [before] && a == [after] {
      assert forall x :: x in images <==> x in multiset(images);
      assert forall x :: x in images <==> x == before || x == after;
    }
  }

  lemma IdlePairIsPinned(images: seq<Image>, key: (string, string), before: Image, after: Image)
    ensures WithIdle(images, key, false) == [before] && WithIdle(images, key, true) == [after] <==>
            multiset(images) == multiset{before, after} && key !in before.idle && key in after.idle
  {
    hide WithIdle;
    if WithIdle(images, key, false) == [before] && WithIdle(images, key, true) == [after] {
      IdlePairHolds(images, key, before, after);
    }
    if multiset(images) == multiset{before, after} && key !in before.idle && key in after.idle {
      PairOrders(images, before, after);
      IdleOfPair(images[0], images[1], key, false);
      IdleOfPair(images[0], images[1], key, true);
    }
  }

  lemma IdlePairHolds(images: seq<Image>, key: (string, string), before: Image, after: Image)
    requires WithIdle(images, key, false) == [before] && WithIdle(images, key, true) == [after]
    ensures multiset(images) == multiset{before, after} && key !in before.idle && key in after.idle
  {
    hide WithIdle;
    WithIdleSplits(images, key);
    WithIdleTells(images, key, false);
    WithIdleTells(images, key, true);
    assert before in [before] && after in [after];
    assert multiset([before]) + multiset([after]) == multiset{before, after};
  }

  lemma IdleOfPair(x: Image, y: Image, key: (string, string), idle: bool)
    ensures WithIdle([x, y], key, idle) ==
            (if (key in x.idle) == idle then [x] else []) + (if (key in y.idle) == idle then [y] else [])
  {
    assert [x, y][1..] == [y] && [y][1..] == [];
    assert WithIdle([y], key, idle) == (if (key in y.idle) == idle then [y] else []) + [];
  }

  lemma ImageOrderIsIrrelevant(x: seq<Image>, y: seq<Image>, id: Identity, worktree: string)
    requires multiset(x) == multiset(y)
    ensures RenewalImages(x, id, worktree) == RenewalImages(y, id, worktree)
  {
    if RenewalImages(x, id, worktree).Ok? {
      var (b, a) := RenewalImages(x, id, worktree).value;
      ImagesArePinned(x, id, worktree, b, a);
      ImagesArePinned(y, id, worktree, b, a);
    }
    if RenewalImages(y, id, worktree).Ok? {
      var (b, a) := RenewalImages(y, id, worktree).value;
      ImagesArePinned(x, id, worktree, b, a);
      ImagesArePinned(y, id, worktree, b, a);
    }
  }

  // ------------------------------------------------------------- claim checks

  /** The worker holds the claim, as the session and incarnation that were captured. */
  predicate OwnedBy(claim: Claim, id: Identity) {
    claim.session == id.session && claim.incarnation == id.incarnation
  }

  predicate BoundIn(image: Image, id: Identity, expected: Expected) {
    && image.claims.Keys == expected.Keys
    && forall slug | slug in expected ::
         var v := image.claims[slug];
         && v.scopes == [expected[slug].0] && OwnedBy(v, id) == expected[slug].1
         && (expected[slug].1 || v.session != id.session)
  }

  predicate ClaimsBound(before: Image, after: Image, id: Identity, expected: Expected) {
    && BoundIn(before, id, expected) && BoundIn(after, id, expected)
    && forall slug | slug in expected :: before.claims[slug].created == after.claims[slug].created
  }

  predicate MovedIn(before: Image, after: Image, id: Identity, moved: seq<string>) {
    && Key(id) in after.idle
    && forall s | s in moved ::
         && s in before.claims && s in after.claims
         && before.claims[s].renewed < after.claims[s].renewed <= after.idle[Key(id)]
  }

  predicate UnmovedIn(before: Image, after: Image, slugs: seq<string>) {
    forall s | s in slugs ::
      s in before.claims && s in after.claims && before.claims[s].renewed == after.claims[s].renewed
  }

  function RenewedMap(image: Image): map<string, int> {
    map slug | slug in image.claims :: image.claims[slug].renewed
  }

  // ------------------------------------------------------------------ journal

  /** Every renewal row of a journal, in order. */
  function RenewalRows(journal: seq<JournalRow>): seq<JournalRow> {
    if journal == [] then []
    else (if journal[0].renewal.Some? then [journal[0]] else []) + RenewalRows(journal[1..])
  }

  lemma {:induction false} RenewalRowsOfConcat(a: seq<JournalRow>, b: seq<JournalRow>)
    ensures RenewalRows(a + b) == RenewalRows(a) + RenewalRows(b)
  {
    if a == [] {
      assert a + b == b;
    } else {
      RenewalRowsOfConcat(a[1..], b);
      assert (a + b)[0] == a[0] && (a + b)[1..] == a[1..] + b;
      Associative(if a[0].renewal.Some? then [a[0]] else [], RenewalRows(a[1..]), RenewalRows(b));
    }
  }

  lemma {:induction false} RowsAreRenewals(journal: seq<JournalRow>)
    ensures forall r | r in RenewalRows(journal) :: r.renewal.Some? && r in journal
  {
    if journal == [] {
    } else {
      RowsAreRenewals(journal[1..]);
    }
  }

  /** How the run spells a placed path in its own worktree. */
  type Native = string -> string

  function Spelled(placed: seq<string>, native: Native): seq<string> {
    seq(|placed|, i requires 0 <= i < |placed| => native(placed[i]))
  }

  const OBSERVED: Json := Obj(map["state" := Str("observed")])
  const APPLIED: Json := Obj(map["state" := Str("applied")])

  predicate RowFits(row: JournalRow, id: Identity, generation: string, native: Native) {
    && row.identity == Some(id) && row.renewal.Some?
    && row.renewal.value.generation == generation && row.renewal.value.coverage == OBSERVED
    && row.renewal.value.result == APPLIED && row.renewal.value.unresolved == []
    && row.renewal.value.offered.Some?
    && row.renewal.value.offered.value.paths == Spelled(row.renewal.value.offered.value.placed, native)
  }

  function PlacedBy(row: JournalRow): seq<string> {
    if row.renewal.Some? && row.renewal.value.offered.Some? then row.renewal.value.offered.value.placed else []
  }

  function CountBy(row: JournalRow): int {
    if row.renewal.Some? then row.renewal.value.renewedClaims else 0
  }

  function Flat(rows: seq<JournalRow>): seq<string> {
    if rows == [] then [] else PlacedBy(rows[0]) + Flat(rows[1..])
  }

  function Total(rows: seq<JournalRow>): int {
    if rows == [] then 0 else CountBy(rows[0]) + Total(rows[1..])
  }

  predicate Whole(group: seq<string>, row: JournalRow) {
    forall p | p in group :: p in PlacedBy(row)
  }

  predicate Together(rows: seq<JournalRow>, together: seq<seq<string>>) {
    forall group | group in together :: exists row | row in rows :: Whole(group, row)
  }

  /** `renewal_applied` */
  predicate Applied(journal: seq<JournalRow>, id: Identity, generation: string, placed: seq<string>, renewed: int,
                    together: seq<seq<string>>, native: Native) {
    var rows := RenewalRows(journal);
    AllFit(rows, id, generation, native) && multiset(Flat(rows)) == multiset(placed)
    && Together(rows, together) && Total(rows) == renewed
  }

  predicate AllFit(rows: seq<JournalRow>, id: Identity, generation: string, native: Native) {
    forall row | row in rows :: RowFits(row, id, generation, native)
  }

  lemma {:induction false} FlatOfConcat(a: seq<JournalRow>, b: seq<JournalRow>)
    ensures Flat(a + b) == Flat(a) + Flat(b)
  {
    hide PlacedBy;
    if a == [] {
      assert a + b == b;
    } else {
      FlatOfConcat(a[1..], b);
      assert (a + b)[0] == a[0] && (a + b)[1..] == a[1..] + b;
      Associative(PlacedBy(a[0]), Flat(a[1..]), Flat(b));
    }
  }

  lemma {:induction false} TotalOfConcat(a: seq<JournalRow>, b: seq<JournalRow>)
    ensures Total(a + b) == Total(a) + Total(b)
  {
    hide CountBy;
    if a == [] {
      assert a + b == b;
    } else {
      TotalOfConcat(a[1..], b);
      assert (a + b)[1..] == a[1..] + b;
    }
  }

  // ---------------------------------------------------------------- batching

  /** Two batches of one launch, each with a native spelling for every placed path. */
  predicate Mergeable(a: JournalRow, b: JournalRow) {
    && a.identity == b.identity && a.renewal.Some? && b.renewal.Some?
    && var x, y := a.renewal.value, b.renewal.value;
       && x.generation == y.generation && x.coverage == y.coverage && x.result == y.result
       && x.offered.Some? && y.offered.Some?
       && |x.offered.value.paths| == |x.offered.value.placed| && |y.offered.value.paths| == |y.offered.value.placed|
  }

  /** Some group the joined batch holds whole is whole in no row. */
  ghost predicate Torn(rows: seq<JournalRow>, joined: JournalRow, together: seq<seq<string>>) {
    exists group | group in together :: Whole(group, joined) && forall row | row in rows :: !Whole(group, row)
  }

  /** The two batches as one completion would have reported them. */
  function Merge(a: JournalRow, b: JournalRow): JournalRow
    requires a.renewal.Some? && b.renewal.Some? && a.renewal.value.offered.Some? && b.renewal.value.offered.Some?
  {
    var x, y := a.renewal.value, b.renewal.value;
    a.(renewal := Some(x.(unresolved := x.unresolved + y.unresolved,
                          offered := Some(Offered(x.offered.value.paths + y.offered.value.paths,
                                                  x.offered.value.placed + y.offered.value.placed)),
                          renewedClaims := x.renewedClaims + y.renewedClaims)))
  }

  lemma MergeFits(a: JournalRow, b: JournalRow, id: Identity, generation: string, native: Native)
    requires Mergeable(a, b)
    ensures RowFits(Merge(a, b), id, generation, native) <==>
            RowFits(a, id, generation, native) && RowFits(b, id, generation, native)
  {
    var x, y := a.renewal.value.offered.value, b.renewal.value.offered.value;
    assert Spelled(x.placed + y.placed, native) == Spelled(x.placed, native) + Spelled(y.placed, native);
    assert (x.paths + y.paths)[..|x.placed|] == x.paths && (x.paths + y.paths)[|x.placed|..] == y.paths;
    var sx, sy := Spelled(x.placed, native), Spelled(y.placed, native);
    assert (sx + sy)[..|x.placed|] == sx && (sx + sy)[|x.placed|..] == sy;
  }

  /** How completions batch does not matter: splitting or joining neighbouring batches changes the
      verdict only by tearing a group that must move together. */
  lemma BatchingIsIrrelevant(pre: seq<JournalRow>, a: JournalRow, mid: seq<JournalRow>, b: JournalRow, post: seq<JournalRow>,
                             id: Identity, generation: string, placed: seq<string>, renewed: int,
                             together: seq<seq<string>>, native: Native)
    requires Mergeable(a, b) && RenewalRows(mid) == []
    ensures var split := pre + [a] + mid + [b] + post;
            var joined := pre + [Merge(a, b)] + mid + post;
            Applied(split, id, generation, placed, renewed, together, native) <==>
            Applied(joined, id, generation, placed, renewed, together, native) && !Torn(RenewalRows(split), Merge(a, b), together)
  {
    hide AllFit, Flat, Total, Together, RenewalRows, Merge;
    var m := Merge(a, b);
    var x, y := RenewalRows(pre), RenewalRows(post);
    var split, joined := x + [a, b] + y, x + [m] + y;
    RowsAround(pre, a, mid, b, post);
    MergeKeepsPaths(x, a, b, y);
    RowsAfterMerge(x, a, b, y, id, generation, native);
    GroupsAfterMerge(x, a, b, y, together);
  }

  lemma RowsAround(pre: seq<JournalRow>, a: JournalRow, mid: seq<JournalRow>, b: JournalRow, post: seq<JournalRow>)
    requires Mergeable(a, b) && RenewalRows(mid) == []
    ensures var m := Merge(a, b);
            && RenewalRows(pre + [a] + mid + [b] + post) == RenewalRows(pre) + [a, b] + RenewalRows(post)
            && RenewalRows(pre + [m] + mid + post) == RenewalRows(pre) + [m] + RenewalRows(post)
  {
    var m := Merge(a, b);
    OneRenewal(a);
    OneRenewal(b);
    OneRenewal(m);
    SplitRows(pre, [a], mid, [b], post);
    SplitRows(pre, [m], mid, [], post);
    assert RenewalRows([]) == [];
    assert pre + [m] + mid + [] == pre + [m] + mid;
    var x, y := RenewalRows(pre), RenewalRows(post);
    assert x + [a] + [] + [b] == x + [a, b];
    assert x + [m] + [] + [] == x + [m];
  }

  lemma OneRenewal(row: JournalRow)
    requires row.renewal.Some?
    ensures RenewalRows([row]) == [row]
  {
    assert [row][1..] == [];
  }

  lemma OneRow(row: JournalRow)
    ensures Flat([row]) == PlacedBy(row) && Total([row]) == CountBy(row)
  {
    assert [row][1..] == [];
    assert PlacedBy(row) + [] == PlacedBy(row);
  }

  lemma MergeKeepsPaths(x: seq<JournalRow>, a: JournalRow, b: JournalRow, y: seq<JournalRow>)
    requires Mergeable(a, b)
    ensures Flat(x + [a, b] + y) == Flat(x + [Merge(a, b)] + y) && Total(x + [a, b] + y) == Total(x + [Merge(a, b)] + y)
  {
    var m := Merge(a, b);
    OneRow(b);
    OneRow(m);
    assert [a, b][1..] == [b];
    assert Flat([a, b]) == PlacedBy(a) + PlacedBy(b) == PlacedBy(m);
    assert Total([a, b]) == Total([m]);
    FlatOfConcat(x + [a, b], y);
    FlatOfConcat(x, [a, b]);
    FlatOfConcat(x + [m], y);
    FlatOfConcat(x, [m]);
    TotalOfConcat(x + [a, b], y);
    TotalOfConcat(x, [a, b]);
    TotalOfConcat(x + [m], y);
    TotalOfConcat(x, [m]);
  }

  lemma SplitRows(pre: seq<JournalRow>, a: seq<JournalRow>, mid: seq<JournalRow>, b: seq<JournalRow>, post: seq<JournalRow>)
    ensures RenewalRows(pre + a + mid + b + post) ==
            RenewalRows(pre) + RenewalRows(a) + RenewalRows(mid) + RenewalRows(b) + RenewalRows(post)
  {
    RenewalRowsOfConcat(pre + a + mid + b, post);
    RenewalRowsOfConcat(pre + a + mid, b);
    RenewalRowsOfConcat(pre + a, mid);
    RenewalRowsOfConcat(pre, a);
  }

  lemma RowsAfterMerge(x: seq<JournalRow>, a: JournalRow, b: JournalRow, y: seq<JournalRow>,
                       id: Identity, generation: string, native: Native)
    requires Mergeable(a, b)
    ensures AllFit(x + [a, b] + y, id, generation, native) <==> AllFit(x + [Merge(a, b)] + y, id, generation, native)
  {
    hide RowFits, Merge;
    MergeFits(a, b, id, generation, native);
    var m := Merge(a, b);
    assert forall row :: row in x + [a, b] + y <==> row in x || row == a || row == b || row in y;
    assert forall row :: row in x + [m] + y <==> row in x || row == m || row in y;
    assert a in x + [a, b] + y && b in x + [a, b] + y && m in x + [m] + y;
  }

  /** Splitting keeps the groups together exactly when none the joined batch held is torn. */
  lemma GroupsAfterMerge(x: seq<JournalRow>, a: JournalRow, b: JournalRow, y: seq<JournalRow>, together: seq<seq<string>>)
    requires Mergeable(a, b)
    ensures var m := Merge(a, b);
            Together(x + [a, b] + y, together) <==> Together(x + [m] + y, together) && !Torn(x + [a, b] + y, m, together)
  {
    hide Whole, Merge;
    var m := Merge(a, b);
    var split, joined := x + [a, b] + y, x + [m] + y;
    if Together(split, together) {
      JoinKeepsGroups(x, a, b, y, together);
    }
    if Together(joined, together) && !Torn(split, m, together) {
      forall group | group in together ensures exists row | row in split :: Whole(group, row) {
        var row :| row in joined && Whole(group, row);
        assert row == m || row in split;
      }
    }
  }

  lemma JoinKeepsGroups(x: seq<JournalRow>, a: JournalRow, b: JournalRow, y: seq<JournalRow>, together: seq<seq<string>>)
    requires Mergeable(a, b) && Together(x + [a, b] + y, together)
    ensures Together(x + [Merge(a, b)] + y, together)
  {
    var m := Merge(a, b);
    forall group | group in together ensures exists row | row in x + [m] + y :: Whole(group, row) {
      var row :| row in x + [a, b] + y && Whole(group, row);
      if row == a || row == b {
        assert m in x + [m] + y && Whole(group, m);
      } else {
        assert row in x + [m] + y;
      }
    }
  }

  /** Neighbouring renewal rows joined wherever they can be, down to the fewest batches. */
  function Coalesced(rows: seq<JournalRow>): seq<JournalRow>
    decreases |rows|
  {
    if |rows| < 2 then rows
    else if Mergeable(rows[0], rows[1]) then Coalesced([Merge(rows[0], rows[1])] + rows[2..])
    else [rows[0]] + Coalesced(rows[1..])
  }

  predicate AllRenewals(rows: seq<JournalRow>) { forall row | row in rows :: row.renewal.Some? }

  /** Some row holds the whole group. */
  predicate HoldsWhole(rows: seq<JournalRow>, group: seq<string>) { exists row | row in rows :: Whole(group, row) }

  /** Some group that the joined rows hold whole is whole in no row as it was. */
  predicate TornApart(rows: seq<JournalRow>, joined: seq<JournalRow>, together: seq<seq<string>>) {
    exists group | group in together :: HoldsWhole(joined, group) && !HoldsWhole(rows, group)
  }

  lemma {:induction false} RenewalsAreRows(rows: seq<JournalRow>)
    requires AllRenewals(rows)
    ensures RenewalRows(rows) == rows
  {
    if rows == [] {
    } else {
      RenewalsAreRows(rows[1..]);
      assert rows[0] in rows;
    }
  }

  lemma {:induction false} CoalescedKeepsRows(rows: seq<JournalRow>, id: Identity, generation: string, native: Native)
    requires AllRenewals(rows)
    ensures AllRenewals(Coalesced(rows))
    ensures AllFit(rows, id, generation, native) <==> AllFit(Coalesced(rows), id, generation, native)
    ensures Flat(rows) == Flat(Coalesced(rows)) && Total(rows) == Total(Coalesced(rows))
    decreases |rows|
  {
    hide RowFits, PlacedBy, CountBy;
    if |rows| < 2 {
    } else if Mergeable(rows[0], rows[1]) {
      var a, b, y := rows[0], rows[1], rows[2..];
      assert rows == [] + [a, b] + y && [] + [Merge(a, b)] + y == [Merge(a, b)] + y;
      RowsAfterMerge([], a, b, y, id, generation, native);
      MergeKeepsPaths([], a, b, y);
      CoalescedKeepsRows([Merge(a, b)] + y, id, generation, native);
    } else {
      CoalescedKeepsRows(rows[1..], id, generation, native);
      assert rows == [rows[0]] + rows[1..];
    }
  }

  lemma {:induction false} CoalescedHoldsMore(rows: seq<JournalRow>, group: seq<string>)
    requires AllRenewals(rows) && HoldsWhole(rows, group)
    ensures HoldsWhole(Coalesced(rows), group)
    decreases |rows|
  {
    var row :| row in rows && Whole(group, row);
    if |rows| < 2 {
    } else if Mergeable(rows[0], rows[1]) {
      var m := Merge(rows[0], rows[1]);
      assert row == rows[0] || row == rows[1] ==> Whole(group, m);
      assert row == rows[0] || row == rows[1] || row in rows[2..];
      assert m in [m] + rows[2..];
      CoalescedHoldsMore([m] + rows[2..], group);
    } else if row == rows[0] {
      assert row in Coalesced(rows);
    } else {
      assert row in rows[1..];
      CoalescedHoldsMore(rows[1..], group);
      var c :| c in Coalesced(rows[1..]) && Whole(group, c);
      assert c in Coalesced(rows);
    }
  }

  /** Join every pair of neighbours that can be joined: the verdict changes only where that brings
      together a group no batch held whole. */
  lemma CoalescingIsIrrelevant(journal: seq<JournalRow>, id: Identity, generation: string, placed: seq<string>, renewed: int,
                               together: seq<seq<string>>, native: Native)
    ensures var rows := RenewalRows(journal);
            Applied(journal, id, generation, placed, renewed, together, native) <==>
            Applied(Coalesced(rows), id, generation, placed, renewed, together, native) && !TornApart(rows, Coalesced(rows), together)
  {
    hide Coalesced, RenewalRows, AllFit, Flat, Total, Whole, HoldsWhole, Together;
    var rows := RenewalRows(journal);
    RowsAreRenewals(journal);
    CoalescedKeepsRows(rows, id, generation, native);
    RenewalsAreRows(Coalesced(rows));
    forall group | group in together && HoldsWhole(rows, group) ensures HoldsWhole(Coalesced(rows), group) {
      CoalescedHoldsMore(rows, group);
    }
    TogetherIsHeld(rows, together);
    TogetherIsHeld(Coalesced(rows), together);
  }

  lemma TogetherIsHeld(rows: seq<JournalRow>, together: seq<seq<string>>)
    ensures Together(rows, together) <==> forall group | group in together :: HoldsWhole(rows, group)
  {}

  /** Batches whose two lists differ in length are never joined: reported as one, two refused rows
      could pass. */
  lemma MismatchedBatchesCouldPass(id: Identity, generation: string, p: string, native: Native)
    ensures var row := (paths: seq<string>, placed: seq<string>) =>
              JournalRow(Some(id), Some(RenewalRow(generation, OBSERVED, APPLIED, [], Some(Offered(paths, placed)), 0)), None, false);
            var a, b := row([native(p)], []), row([], [p]);
            && !Mergeable(a, b) && !Applied([a, b], id, generation, [p], 0, [], native)
            && Applied([Merge(a, b)], id, generation, [p], 0, [], native)
  {
    var a := JournalRow(Some(id), Some(RenewalRow(generation, OBSERVED, APPLIED, [], Some(Offered([native(p)], [])), 0)), None, false);
    var b := JournalRow(Some(id), Some(RenewalRow(generation, OBSERVED, APPLIED, [], Some(Offered([], [p])), 0)), None, false);
    var m := Merge(a, b);
    RenewalsAreRows([a, b]);
    RenewalsAreRows([m]);
    OneRow(m);
    assert a in [a, b] && !RowFits(a, id, generation, native);
    assert [native(p)] + [] == [native(p)] == Spelled([] + [p], native);
    assert RowFits(m, id, generation, native);
    assert PlacedBy(m) == [p];
  }

  // ------------------------------------------------------- what acceptance means

  lemma {:induction false} PlacedIsFlat(rows: seq<JournalRow>, i: nat)
    requires i < |rows|
    ensures Flat(rows) == Flat(rows[..i]) + PlacedBy(rows[i]) + Flat(rows[i + 1..])
  {
    FlatOfConcat(rows[..i], rows[i..]);
    assert rows == rows[..i] + rows[i..];
    assert rows[i..][0] == rows[i] && rows[i..][1..] == rows[i + 1..];
  }

  lemma {:induction false} FlatHolds(rows: seq<JournalRow>, p: string)
    ensures p in Flat(rows) <==> exists i | 0 <= i < |rows| :: p in PlacedBy(rows[i])
  {
    if rows == [] {
    } else {
      FlatHolds(rows[1..], p);
      if p in Flat(rows[1..]) {
        var i :| 0 <= i < |rows[1..]| && p in PlacedBy(rows[1..][i]);
        assert p in PlacedBy(rows[i + 1]);
      }
      forall i | 0 < i < |rows| && p in PlacedBy(rows[i]) ensures p in Flat(rows[1..]) {
        assert p in PlacedBy(rows[1..][i - 1]);
      }
    }
  }

  ghost predicate Distinct(xs: seq<string>) { forall i, j | 0 <= i < j < |xs| :: xs[i] != xs[j] }

  lemma {:induction false} DistinctCounts(xs: seq<string>)
    requires Distinct(xs)
    ensures forall x :: multiset(xs)[x] <= 1
  {
    if xs == [] {
    } else {
      DistinctCounts(xs[1..]);
      assert xs == [xs[0]] + xs[1..];
      assert xs[0] !in xs[1..];
    }
  }

  /** `p` is placed by exactly one row. */
  ghost predicate InOneRow(rows: seq<JournalRow>, p: string) {
    exists i | 0 <= i < |rows| ::
      p in PlacedBy(rows[i]) && forall j | 0 <= j < |rows| && j != i :: p !in PlacedBy(rows[j])
  }

  lemma CountedOnceIsInOneRow(rows: seq<JournalRow>, p: string)
    requires multiset(Flat(rows))[p] == 1
    ensures InOneRow(rows, p)
  {
    assert p in multiset(Flat(rows));
    FlatHolds(rows, p);
    var i :| 0 <= i < |rows| && p in PlacedBy(rows[i]);
    forall j | 0 <= j < |rows| && j != i ensures p !in PlacedBy(rows[j]) {
      PlacedOnce(rows, i, j, p);
    }
  }

  /** Acceptance places every path once, in exactly one row, places nothing else, keeps every whole
      group in one row, and accounts for every renewed claim. */
  lemma AppliedMeans(journal: seq<JournalRow>, id: Identity, generation: string, placed: seq<string>, renewed: int,
                     together: seq<seq<string>>, native: Native)
    requires Applied(journal, id, generation, placed, renewed, together, native) && Distinct(placed)
    ensures var rows := RenewalRows(journal);
            && (forall p | p in placed :: InOneRow(rows, p))
            && (forall i, p | 0 <= i < |rows| && p in PlacedBy(rows[i]) :: p in placed)
            && (forall group | group in together :: exists row | row in rows :: Whole(group, row))
            && Total(rows) == renewed
  {
    hide Flat, RowFits, InOneRow, PlacedBy, Total, RenewalRows;
    var rows := RenewalRows(journal);
    DistinctCounts(placed);
    forall p | p in placed ensures InOneRow(rows, p) {
      assert p in multiset(placed);
      CountedOnceIsInOneRow(rows, p);
    }
    forall i, p | 0 <= i < |rows| && p in PlacedBy(rows[i]) ensures p in placed {
      FlatHolds(rows, p);
      assert p in multiset(Flat(rows));
    }
  }

  lemma PlacedOnce(rows: seq<JournalRow>, i: nat, j: nat, p: string)
    requires i < |rows| && j < |rows| && i != j && multiset(Flat(rows))[p] <= 1 && p in PlacedBy(rows[i])
    ensures p !in PlacedBy(rows[j])
  {
    var x, y, z := Flat(rows[..i]), PlacedBy(rows[i]), Flat(rows[i + 1..]);
    PlacedIsFlat(rows, i);
    assert multiset(x + y + z)[p] == multiset(x)[p] + multiset(y)[p] + multiset(z)[p];
    assert p in multiset(y);
    assert p !in multiset(x) && p !in multiset(z);
    if j < i {
      FlatHolds(rows[..i], p);
      assert rows[..i][j] == rows[j];
    } else {
      FlatHolds(rows[i + 1..], p);
      assert rows[i + 1..][j - i - 1] == rows[j];
    }
  }

  // --------------------------------------------------- exactly the written claims

  /** `renewal_receipt_matches` */
  predicate ReceiptMatches(r: Receipt, before: Image, after: Image, journal: seq<JournalRow>) {
    && r.before == RenewedMap(before) && r.after == RenewedMap(after)
    && r.journal == RowsOf(RenewalRows(journal))
  }

  function RowsOf(rows: seq<JournalRow>): seq<RenewalRow> {
    if rows == [] then []
    else (if rows[0].renewal.Some? then [rows[0].renewal.value] else []) + RowsOf(rows[1..])
  }

  /** A scope is a file or a directory prefix. */
  predicate Covers(scope: string, path: string) { path == scope || scope + "/" <= path }

  /** No claim's scope covers another's: the ledger grants no overlapping claims. */
  ghost predicate Disjoint(expected: Expected) {
    forall s, u | s in expected && u in expected && s != u :: !Covers(expected[s].0, expected[u].0)
  }

  /** The suite writes under this scope. */
  ghost predicate Written(scope: string, placed: seq<string>) { exists p | p in placed :: Covers(scope, p) }

  /** The path lies under a claim on the moved list. */
  ghost predicate Claimed(p: string, expected: Expected, moved: seq<string>) {
    exists s :: s in moved && s in expected && Covers(expected[s].0, p)
  }

  /** What a suite writes down: its claims do not overlap, its two lists name exactly them, and it writes
      under every claim on the moved list and nowhere else. */
  ghost predicate SuiteLists(expected: Expected, moved: seq<string>, still: seq<string>, placed: seq<string>) {
    && Disjoint(expected)
    && (forall s :: s in expected <==> s in moved || s in still)
    && (forall p | p in placed :: Claimed(p, expected, moved))
    && (forall s | s in moved && s in expected :: Written(expected[s].0, placed))
  }

  /** The lists split the claims by what the written paths touch. */
  ghost predicate ListsFollowScopes(expected: Expected, moved: seq<string>, still: seq<string>, placed: seq<string>) {
    && (forall s :: s in expected <==> s in moved || s in still)
    && (forall s | s in expected :: s in moved <==> Written(expected[s].0, placed))
  }

  /** Two scopes over one path: one of them covers the other. */
  lemma ScopesOfOnePath(a: string, b: string, p: string)
    requires Covers(a, p) && Covers(b, p)
    ensures Covers(a, b) || Covers(b, a)
  {
    if |a| < |b| {
      assert b <= p && (a + "/")[..] == p[..|a| + 1] == b[..|a| + 1];
    } else if |b| < |a| {
      assert a <= p && (b + "/")[..] == p[..|b| + 1] == a[..|b| + 1];
    } else {
      assert a == p[..|a|] == b;
    }
  }

  /** No claim that was not written to covers a written path, so the moved list is exactly the touched claims. */
  lemma DisjointScopesDecide(expected: Expected, moved: seq<string>, still: seq<string>, placed: seq<string>)
    requires SuiteLists(expected, moved, still, placed)
    ensures ListsFollowScopes(expected, moved, still, placed)
  {
    hide Written;
    forall s | s in expected && Written(expected[s].0, placed) ensures s in moved {
      WrittenIsMoved(expected, moved, placed, s);
    }
  }

  lemma WrittenIsMoved(expected: Expected, moved: seq<string>, placed: seq<string>, s: string)
    requires Disjoint(expected) && (forall p | p in placed :: Claimed(p, expected, moved))
    requires s in expected && Written(expected[s].0, placed)
    ensures s in moved
  {
    hide Covers;
    var p :| p in placed && Covers(expected[s].0, p);
    assert Claimed(p, expected, moved);
    var u :| u in moved && u in expected && Covers(expected[u].0, p);
    ScopesOfOnePath(expected[s].0, expected[u].0, p);
  }

  /** The claims whose renewed time differs between the receipt's two maps. */
  function Changed(r: Receipt): set<string> {
    set s | s in r.before && (s !in r.after || r.before[s] != r.after[s])
  }

  /** Some row placed a path this scope covers. */
  ghost predicate CoveredBy(scope: string, rows: seq<JournalRow>) {
    exists i, p | 0 <= i < |rows| && p in PlacedBy(rows[i]) :: Covers(scope, p)
  }

  /** The claims whose one scope, as the ledger image holds it, covers a path some row placed. */
  ghost function Touched(image: Image, rows: seq<JournalRow>): set<string> {
    set s | s in image.claims && |image.claims[s].scopes| == 1 && CoveredBy(image.claims[s].scopes[0], rows)
  }

  /** The checks together pin the receipt: the claims it shows moving are exactly those whose single
      scope covers a path the journal placed, each moved forward and not past the worker's idle. */
  lemma ExactlyTheWrittenClaimsMoved(
      images: seq<Image>, worktree: string, r: Receipt, journal: seq<JournalRow>, written: seq<JournalRow>,
      id: Identity, generation: string, placed: seq<string>, renewed: int, together: seq<seq<string>>, native: Native,
      expected: Expected, moved: seq<string>, still: seq<string>)
    requires RenewalImages(images, id, worktree).Ok?
    requires var (before, after) := RenewalImages(images, id, worktree).value;
             && ClaimsBound(before, after, id, expected) && ReceiptMatches(r, before, after, journal)
             && MovedIn(before, after, id, moved) && UnmovedIn(before, after, still)
    requires Applied(written, id, generation, placed, renewed, together, native)
    requires SuiteLists(expected, moved, still, placed)
    ensures var (before, after) := RenewalImages(images, id, worktree).value;
            && r.before.Keys == r.after.Keys == expected.Keys
            && Changed(r) == Touched(before, RenewalRows(written)) == set s | s in moved
            && forall s | s in Changed(r) :: r.before[s] < r.after[s] <= after.idle[Key(id)]
  {
    hide RenewalImages, RenewalRows, Flat, Changed, Touched, SuiteLists, ListsFollowScopes;
    var (before, after) := RenewalImages(images, id, worktree).value;
    DisjointScopesDecide(expected, moved, still, placed);
    ChangedIsMoved(before, after, r, id, expected, moved, still, placed);
    MovedIsTouched(before, id, RenewalRows(written), expected, moved, still, placed);
  }

  /** The receipt shows moving exactly the claims on the moved list. */
  lemma ChangedIsMoved(before: Image, after: Image, r: Receipt, id: Identity,
                       expected: Expected, moved: seq<string>, still: seq<string>, placed: seq<string>)
    requires ClaimsBound(before, after, id, expected) && ListsFollowScopes(expected, moved, still, placed)
    requires r.before == RenewedMap(before) && r.after == RenewedMap(after)
    requires MovedIn(before, after, id, moved) && UnmovedIn(before, after, still)
    ensures r.before.Keys == r.after.Keys == expected.Keys && Changed(r) == (set s | s in moved)
    ensures forall s | s in Changed(r) :: r.before[s] < r.after[s] <= after.idle[Key(id)]
  {
    hide Written, MovedIn, UnmovedIn, BoundIn, RenewedMap;
    ExpectedAreClaims(before, after, id, expected);
    RenewedMapHolds(before);
    RenewedMapHolds(after);
    IdleIsKnown(before, after, id, moved);
    forall s | s in expected
      ensures s in Changed(r) <==> s in moved
      ensures s in moved ==> before.claims[s].renewed < after.claims[s].renewed <= after.idle[Key(id)]
    {
      ListedClaims(before, after, id, moved, still, s);
    }
    assert forall s | s in moved :: s in expected;
  }

  lemma ExpectedAreClaims(before: Image, after: Image, id: Identity, expected: Expected)
    requires ClaimsBound(before, after, id, expected)
    ensures before.claims.Keys == after.claims.Keys == expected.Keys
  {}

  lemma IdleIsKnown(before: Image, after: Image, id: Identity, moved: seq<string>)
    requires MovedIn(before, after, id, moved)
    ensures Key(id) in after.idle
  {}

  lemma RenewedMapHolds(image: Image)
    ensures RenewedMap(image).Keys == image.claims.Keys
    ensures forall s | s in image.claims :: RenewedMap(image)[s] == image.claims[s].renewed
  {}

  lemma ListedClaims(before: Image, after: Image, id: Identity, moved: seq<string>, still: seq<string>, s: string)
    requires MovedIn(before, after, id, moved) && UnmovedIn(before, after, still)
    requires s in before.claims && s in after.claims && (s in moved || s in still)
    ensures Key(id) in after.idle
    ensures s in moved <==> before.claims[s].renewed != after.claims[s].renewed
    ensures s in moved ==> before.claims[s].renewed < after.claims[s].renewed <= after.idle[Key(id)]
  {}

  /** The moved list is exactly the claims whose scope covers a path some row placed. */
  lemma MovedIsTouched(before: Image, id: Identity, rows: seq<JournalRow>,
                       expected: Expected, moved: seq<string>, still: seq<string>, placed: seq<string>)
    requires BoundIn(before, id, expected) && ListsFollowScopes(expected, moved, still, placed)
    requires multiset(Flat(rows)) == multiset(placed)
    ensures (set s | s in moved) == Touched(before, rows)
  {
    hide Written, CoveredBy;
    forall s | s in expected ensures s in moved <==> s in Touched(before, rows) {
      CoveredByPlaced(expected[s].0, rows, placed);
      assert before.claims[s].scopes == [expected[s].0];
    }
    assert forall s | s in moved :: s in expected;
  }

  lemma CoveredByPlaced(scope: string, rows: seq<JournalRow>, placed: seq<string>)
    requires multiset(Flat(rows)) == multiset(placed)
    ensures CoveredBy(scope, rows) <==> Written(scope, placed)
  {
    hide PlacedBy, Covers, Flat;
    PlacedIsWhatRowsPlace(rows, placed);
    if CoveredBy(scope, rows) {
      var i, p :| 0 <= i < |rows| && p in PlacedBy(rows[i]) && Covers(scope, p);
      assert p in placed;
    }
    if Written(scope, placed) {
      var p :| p in placed && Covers(scope, p);
      var i :| 0 <= i < |rows| && p in PlacedBy(rows[i]);
    }
  }

  lemma PlacedIsWhatRowsPlace(rows: seq<JournalRow>, placed: seq<string>)
    requires multiset(Flat(rows)) == multiset(placed)
    ensures forall p :: p in placed <==> exists i | 0 <= i < |rows| :: p in PlacedBy(rows[i])
  {
    forall p ensures p in placed <==> exists i | 0 <= i < |rows| :: p in PlacedBy(rows[i]) {
      FlatHolds(rows, p);
      assert p in placed <==> p in multiset(placed);
      assert p in Flat(rows) <==> p in multiset(Flat(rows));
    }
  }

  // ------------------------------------------------------------ the Claude suite

  const CLAUDE_CLAIMS: Expected := map[
    "worker-allowed" := ("allowed.txt", true), "worker-denied" := ("operator-denied.txt", true),
    "worker-control" := ("control.txt", true), "held" := ("guarded.txt", false)]

  const CLAUDE_STILL: seq<string> := ["worker-denied", "worker-control", "held"]
  const CLAUDE_MOVED: seq<string> := ["worker-allowed"]
  const CLAUDE_PLACED: seq<string> := ["allowed.txt"]

  lemma ClaudeListsFit()
    ensures SuiteLists(CLAUDE_CLAIMS, CLAUDE_MOVED, CLAUDE_STILL, CLAUDE_PLACED)
  {
    hide Covers;
    ClaudeSlugsDiffer();
    ClaudeScopesDiffer();
    assert forall p :: p in CLAUDE_PLACED <==> p == "allowed.txt";
    assert Claimed("allowed.txt", CLAUDE_CLAIMS, CLAUDE_MOVED) && Written("allowed.txt", CLAUDE_PLACED);
  }

  lemma ClaudeSlugsDiffer()
    ensures forall s :: s in CLAUDE_CLAIMS <==> s in CLAUDE_MOVED || s in CLAUDE_STILL
    ensures CLAUDE_CLAIMS["worker-allowed"].0 == "allowed.txt"
  {
    assert "worker-allowed"[7] == 'a' && "worker-denied"[7] == 'd' && "worker-control"[7] == 'c' && "held"[0] == 'h';
  }

  /** The four scopes begin with four letters, so none covers another. */
  lemma ClaudeScopesDiffer()
    ensures Disjoint(CLAUDE_CLAIMS) && Covers("allowed.txt", "allowed.txt")
  {
    forall s, u | s in CLAUDE_CLAIMS && u in CLAUDE_CLAIMS && s != u ensures !Covers(CLAUDE_CLAIMS[s].0, CLAUDE_CLAIMS[u].0) {
      var a, b := CLAUDE_CLAIMS[s].0, CLAUDE_CLAIMS[u].0;
      assert a[0] != b[0];
      assert (a + "/")[0] == a[0];
    }
  }

  /** The journal without its last renewal row, which is the Edit's. */
  function WriteRows(journal: seq<JournalRow>): seq<JournalRow> {
    if journal == [] then []
    else if journal[|journal| - 1].renewal.Some? then journal[..|journal| - 1]
    else WriteRows(journal[..|journal| - 1]) + [journal[|journal| - 1]]
  }

  /** In a qualified run only the claim on the written file moves, whatever the batching, the image
      order or the rest of the journal. */
  lemma ClaudeRunMovesOnlyTheWrittenClaim(
      images: seq<Image>, worktree: string, r: Receipt, journal: seq<JournalRow>, id: Identity, generation: string, native: Native)
    requires RenewalImages(images, id, worktree).Ok?
    requires var (before, after) := RenewalImages(images, id, worktree).value;
             && ClaimsBound(before, after, id, CLAUDE_CLAIMS) && ReceiptMatches(r, before, after, journal)
             && MovedIn(before, after, id, CLAUDE_MOVED) && UnmovedIn(before, after, CLAUDE_STILL)
    requires Applied(WriteRows(journal), id, generation, CLAUDE_PLACED, 1, [], native)
    ensures Changed(r) == Touched(RenewalImages(images, id, worktree).value.0, RenewalRows(WriteRows(journal))) == {"worker-allowed"}
    ensures r.before.Keys == r.after.Keys == CLAUDE_CLAIMS.Keys
    ensures var (before, after) := RenewalImages(images, id, worktree).value;
            && "worker-allowed" in before.claims && OwnedBy(before.claims["worker-allowed"], id)
            && "held" in before.claims && before.claims["held"].session != id.session
  {
    hide RenewalImages, Applied, WriteRows, ClaimsBound, ReceiptMatches, MovedIn, UnmovedIn, RenewalRows;
    ClaudeListsFit();
    BoundNamesOwners(images, worktree, id);
    ExactlyTheWrittenClaimsMoved(images, worktree, r, journal, WriteRows(journal), id, generation, CLAUDE_PLACED, 1, [], native,
                                 CLAUDE_CLAIMS, CLAUDE_MOVED, CLAUDE_STILL);
  }

  lemma BoundNamesOwners(images: seq<Image>, worktree: string, id: Identity)
    requires RenewalImages(images, id, worktree).Ok?
    requires var (before, after) := RenewalImages(images, id, worktree).value; ClaimsBound(before, after, id, CLAUDE_CLAIMS)
    ensures var (before, after) := RenewalImages(images, id, worktree).value;
            && "worker-allowed" in before.claims && OwnedBy(before.claims["worker-allowed"], id)
            && "held" in before.claims && before.claims["held"].session != id.session
  {
    hide RenewalImages;
    assert "worker-allowed"[7] == 'a' && "worker-denied"[7] == 'd' && "worker-control"[7] == 'c' && "held"[0] == 'h';
    assert CLAUDE_CLAIMS["held"].1 == false && CLAUDE_CLAIMS["worker-allowed"].1 == true;
  }

  // ----------------------------------------------------------------- ordering

  function Least(xs: seq<nat>): nat
    requires xs != []
  {
    if |xs| == 1 then xs[0] else var m := Least(xs[1..]); if xs[0] < m then xs[0] else m
  }

  function Greatest(xs: seq<nat>): nat
    requires xs != []
  {
    if |xs| == 1 then xs[0] else var m := Greatest(xs[1..]); if xs[0] > m then xs[0] else m
  }

  function Allows(approval: string): JournalRow -> bool { (v: JournalRow) => v.allowed == Some(approval) }

  function AllowsAt(journal: seq<JournalRow>, approval: string): seq<nat> { Where(journal, Allows(approval), 0) }

  function IdlesAt(journal: seq<JournalRow>): seq<nat> { Where(journal, (v: JournalRow) => v.idle, 0) }

  function RenewalsAt(journal: seq<JournalRow>): seq<nat> { Where(journal, (v: JournalRow) => v.renewal.Some?, 0) }

  /** `ordered`: one allow for the approval, before every renewal row, and all of them before the first idle. */
  predicate Ordered(journal: seq<JournalRow>, approval: string) {
    var allow, idle, at := AllowsAt(journal, approval), IdlesAt(journal), RenewalsAt(journal);
    |allow| == 1 && idle != [] && at != [] && allow[0] < Least(at) && Greatest(at) < idle[0]
  }

  lemma {:induction false} LeastAndGreatest(xs: seq<nat>)
    requires xs != []
    ensures Least(xs) in xs && Greatest(xs) in xs && forall x | x in xs :: Least(xs) <= x <= Greatest(xs)
  {
    if |xs| == 1 {
    } else {
      LeastAndGreatest(xs[1..]);
      assert xs == [xs[0]] + xs[1..];
    }
  }

  /** Every renewal row stands after row `a` and before every idle, and both kinds occur. */
  ghost predicate RenewalsBetween(journal: seq<JournalRow>, a: nat) {
    && (exists i | 0 <= i < |journal| :: journal[i].idle) && (exists i | 0 <= i < |journal| :: journal[i].renewal.Some?)
    && (forall i | 0 <= i < |journal| && journal[i].renewal.Some? :: a < i)
    && (forall i, j | 0 <= i < |journal| && 0 <= j < |journal| && journal[i].renewal.Some? && journal[j].idle :: i < j)
  }

  lemma ListedRows(journal: seq<JournalRow>)
    ensures forall i: int :: i in RenewalsAt(journal) <==> 0 <= i < |journal| && journal[i].renewal.Some?
    ensures forall i: int :: i in IdlesAt(journal) <==> 0 <= i < |journal| && journal[i].idle
    ensures Ascending(IdlesAt(journal))
  {
    WhereIsExact(journal, (v: JournalRow) => v.idle, 0);
    WhereIsExact(journal, (v: JournalRow) => v.renewal.Some?, 0);
  }

  lemma RenewalsBetweenIsListed(journal: seq<JournalRow>, a: nat)
    ensures var idle, at := IdlesAt(journal), RenewalsAt(journal);
            RenewalsBetween(journal, a) <==> idle != [] && at != [] && a < Least(at) && Greatest(at) < idle[0]
  {
    hide RenewalsBetween, Least, Greatest, Ascending, IdlesAt, RenewalsAt;
    var idle, at := IdlesAt(journal), RenewalsAt(journal);
    ListedRows(journal);
    BetweenByMembers(journal, at, idle, a);
    assert idle != [] ==> idle[0] in idle;
    assert at != [] ==> at[0] in at;
    if idle != [] && at != [] {
      BetweenByEnds(at, idle, a);
    }
  }

  lemma BetweenByMembers(journal: seq<JournalRow>, at: seq<nat>, idle: seq<nat>, a: nat)
    requires forall i: int :: i in at <==> 0 <= i < |journal| && journal[i].renewal.Some?
    requires forall i: int :: i in idle <==> 0 <= i < |journal| && journal[i].idle
    ensures RenewalsBetween(journal, a) <==>
            && (exists j :: j in idle) && (exists i :: i in at)
            && (forall i | i in at :: a < i) && (forall i, j | i in at && j in idle :: i < j)
  {
    if (exists j :: j in idle) && (exists i :: i in at) {
      var j :| j in idle;
      var i :| i in at;
      assert journal[j].idle && journal[i].renewal.Some?;
    }
  }

  lemma BetweenByEnds(at: seq<nat>, idle: seq<nat>, a: nat)
    requires at != [] && idle != [] && Ascending(idle)
    ensures a < Least(at) <==> forall i | i in at :: a < i
    ensures Greatest(at) < idle[0] <==> forall i, j | i in at && j in idle :: i < j
  {
    LeastAndGreatest(at);
    assert idle[0] in idle && forall k | 0 <= k < |idle| :: idle[0] <= idle[k];
  }

  /** The order accepted is that of the rows themselves. */
  lemma OrderedMeans(journal: seq<JournalRow>, approval: string)
    ensures Ordered(journal, approval) <==> exists a: nat :: OnlyAt(journal, Allows(approval), a) && RenewalsBetween(journal, a)
  {
    hide OnlyAt, RenewalsBetween, Allows, IdlesAt, RenewalsAt, Least, Greatest;
    var allow := AllowsAt(journal, approval);
    forall a: nat
      ensures OnlyAt(journal, Allows(approval), a) && RenewalsBetween(journal, a) <==> allow == [a] && Ordered(journal, approval)
    {
      OnlyIsListed(journal, Allows(approval), a);
      RenewalsBetweenIsListed(journal, a);
    }
    if Ordered(journal, approval) {
      assert allow == [allow[0]];
    }
  }
}
