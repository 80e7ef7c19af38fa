/** Selecting residual notes for external DEXes: the early-exit scan, its exhaustive meaning, safety and maximality. */
module Select {
  import opened Types

  /** A standing quote, oriented as the notes of its pair: supplies up to `supply` to receive `demand`. */
  datatype Quote = Quote(dex: DexId, pair: Pair, supply: Amount, demand: Amount, expiresAt: Amount)
  {
    /** Rate = supply / demand, higher is more generous. */
    function Rate(): RateKey { RateKey(supply, demand) }

    predicate Usable(time: Amount) { time < expiresAt && supply != 0 && demand != 0 }
  }

  /** One note handed to one DEX, at the note's own rate. */
  datatype Pick = Pick(dex: DexId, noteId: OrderId, fill: Amount, pair: Pair, price: RateKey)

  predicate Crosses(note: Order, q: Quote) { note.requested * q.demand <= q.supply * note.offered }

  /** Most generous first, over the quotes that name a rate at all. */
  ghost predicate Descending(quotes: seq<Quote>)
  {
    forall i, j :: 0 <= i < j < |quotes| && quotes[i].Rate().Positive() && quotes[j].Rate().Positive()
      ==> quotes[j].Rate().AtMost(quotes[i].Rate())
  }

  /** Under descending rates the crossing quotes are a prefix. */
  lemma CrossingIsPrefix(note: Order, quotes: seq<Quote>, i: nat, j: nat)
    requires note.Valid() && Descending(quotes) && i < j < |quotes|
    requires quotes[i].Rate().Positive() && quotes[j].Rate().Positive() && Crosses(note, quotes[j])
    ensures Crosses(note, quotes[i])
  {
    RateOrder(note.Rate(), quotes[j].Rate(), quotes[i].Rate());
  }

  /** Quote `i` could take the note: usable, crossing, and with enough capacity left. */
  predicate Fits(note: Order, quotes: seq<Quote>, remaining: seq<nat>, time: Amount, i: nat)
    requires |remaining| == |quotes|
  {
    i < |quotes| && quotes[i].Usable(time) && Crosses(note, quotes[i]) && note.requested <= remaining[i]
  }

  /** An exhaustive search for the last quote that fits among the first `n`. */
  function LastFit(note: Order, quotes: seq<Quote>, remaining: seq<nat>, time: Amount, n: nat): (c: Option<nat>)
    requires |remaining| == |quotes| && n <= |quotes|
    ensures c.None? ==> forall i :: 0 <= i < n ==> !Fits(note, quotes, remaining, time, i)
    ensures c.Some? ==> c.value < n && Fits(note, quotes, remaining, time, c.value)
    ensures c.Some? ==> forall i :: c.value < i < n ==> !Fits(note, quotes, remaining, time, i)
  {
    if n == 0 then None
    else if Fits(note, quotes, remaining, time, n - 1) then Some(n - 1)
    else LastFit(note, quotes, remaining, time, n - 1)
  }

  lemma {:induction false} LastFitSkips(note: Order, quotes: seq<Quote>, remaining: seq<nat>, time: Amount, i: nat,
      n: nat)
    requires |remaining| == |quotes| && i <= n <= |quotes|
    requires forall j :: i <= j < n ==> !Fits(note, quotes, remaining, time, j)
    ensures LastFit(note, quotes, remaining, time, n) == LastFit(note, quotes, remaining, time, i)
  {
    if i < n {
      LastFitSkips(note, quotes, remaining, time, i, n - 1);
    }
  }

  /** The last quote that fits has the smallest rate of all quotes that fit. */
  lemma LastFitIsTightest(note: Order, quotes: seq<Quote>, remaining: seq<nat>, time: Amount, j: nat)
    requires note.Valid() && |remaining| == |quotes| && Descending(quotes) && Fits(note, quotes, remaining, time, j)
    ensures var c := LastFit(note, quotes, remaining, time, |quotes|); c.Some? && quotes[c.value].Rate().AtMost(quotes[j].Rate())
  {
    var c := LastFit(note, quotes, remaining, time, |quotes|).value;
    RateOrder(quotes[c].Rate(), quotes[c].Rate(), quotes[c].Rate());
    if j < c {
      assert quotes[c].Rate().AtMost(quotes[j].Rate());
    } else {
      assert j == c;
    }
  }

  /** The scan of one note over the quotes, breaking at the first usable quote that does not cross. */
  method Choose(note: Order, quotes: seq<Quote>, remaining: seq<nat>, time: Amount) returns (chosen: Option<nat>)
    requires note.Valid() && |remaining| == |quotes| && Descending(quotes)
    ensures chosen == LastFit(note, quotes, remaining, time, |quotes|)
  {
    chosen := None;
    for i := 0 to |quotes|
      invariant chosen == LastFit(note, quotes, remaining, time, i)
    {
      var q := quotes[i];
      if q.expiresAt <= time || q.supply == 0 || q.demand == 0 {
        continue;
      }
      if !Crosses(note, q) {
        forall j | i <= j < |quotes|
          ensures !Fits(note, quotes, remaining, time, j)
        {
          if i < j && quotes[j].Rate().Positive() && Crosses(note, quotes[j]) {
            CrossingIsPrefix(note, quotes, i, j);
          }
        }
        LastFitSkips(note, quotes, remaining, time, i, |quotes|);
        return;
      }
      if note.requested <= remaining[i] {
        chosen := Some(i);
      }
    }
  }

  // ---------------------------------------------------------------------------
  // A whole pair
  // ---------------------------------------------------------------------------

  /** What each quote can still supply once the notes, in order, went to the last quote that fitted. */
  ghost function Left(notes: seq<Order>, quotes: seq<Quote>, time: Amount): (left: seq<nat>)
    ensures |left| == |quotes|
  {
    if notes == [] then seq(|quotes|, i requires 0 <= i < |quotes| => quotes[i].supply)
    else
      var left, note := Left(notes[..|notes| - 1], quotes, time), notes[|notes| - 1];
      var c := LastFit(note, quotes, left, time, |quotes|);
      if c.None? then left else left[c.value := left[c.value] - note.requested]
  }

  /** The quote that is left for note `k` when its turn comes. */
  ghost function ChoiceFor(notes: seq<Order>, quotes: seq<Quote>, time: Amount, k: nat): (c: Option<nat>)
    requires k < |notes|
    ensures c.Some? ==> c.value < |quotes|
  {
    LastFit(notes[k], quotes, Left(notes[..k], quotes, time), time, |quotes|)
  }

  function PickFor(pair: Pair, note: Order, q: Quote): Pick { Pick(q.dex, note.id, note.requested, pair, note.Rate()) }

  /** The reference selection of one pair: each note in turn to the last quote that fits, searched exhaustively. */
  ghost function Picked(pair: Pair, notes: seq<Order>, quotes: seq<Quote>, time: Amount): seq<Pick>
  {
    if notes == [] then []
    else
      var k := |notes| - 1;
      var picks, c := Picked(pair, notes[..k], quotes, time), ChoiceFor(notes, quotes, time, k);
      if c.None? then picks else picks + [PickFor(pair, notes[k], quotes[c.value])]
  }

  /** Match one pair's notes against its quotes. */
  method MatchPair(pair: Pair, notes: seq<Order>, quotes: seq<Quote>, time: Amount) returns (picks: seq<Pick>)
    requires Descending(quotes) && forall k :: 0 <= k < |notes| ==> notes[k].Valid()
    ensures picks == Picked(pair, notes, quotes, time)
  {
    hide Descending;
    hide Fits;
    var remaining: seq<nat> := seq(|quotes|, i requires 0 <= i < |quotes| => quotes[i].supply);
    picks := [];
    assert notes[..0] == [];
    for k := 0 to |notes|
      invariant remaining == Left(notes[..k], quotes, time)
      invariant picks == Picked(pair, notes[..k], quotes, time)
    {
      var note := notes[k];
      PrefixStep(notes, quotes, time, k);
      var chosen := Choose(note, quotes, remaining, time);
      FitHasRoom(note, quotes, remaining, time);
      if chosen.Some? {
        var i := chosen.value;
        remaining := remaining[i := remaining[i] - note.requested];
        picks := picks + [PickFor(pair, note, quotes[i])];
      }
    }
    assert notes[..|notes|] == notes;
  }

  lemma PrefixStep(notes: seq<Order>, quotes: seq<Quote>, time: Amount, k: nat)
    requires k < |notes|
    ensures notes[..k + 1][..k] == notes[..k] && notes[..k + 1][k] == notes[k]
    ensures ChoiceFor(notes[..k + 1], quotes, time, k) == ChoiceFor(notes, quotes, time, k)
  {}

  lemma FitHasRoom(note: Order, quotes: seq<Quote>, remaining: seq<nat>, time: Amount)
    requires |remaining| == |quotes|
    ensures var c := LastFit(note, quotes, remaining, time, |quotes|);
      c.Some? ==> c.value < |quotes| && note.requested <= remaining[c.value]
  {}

  /** Capacity only shrinks. */
  lemma {:induction false} LeftShrinks(notes: seq<Order>, quotes: seq<Quote>, time: Amount, k: nat, i: nat)
    requires k <= |notes| && i < |quotes|
    ensures Left(notes, quotes, time)[i] <= Left(notes[..k], quotes, time)[i]
    decreases |notes|
  {
    if k == |notes| {
      assert notes[..k] == notes;
    } else {
      hide LastFit;
      LeftStep(notes, quotes, time);
      hide Left;
      hide ChoiceFor;
      var init := notes[..|notes| - 1];
      LeftShrinks(init, quotes, time, k, i);
      assert init[..k] == notes[..k];
    }
  }

  /** What the last note of a list does to the capacities. */
  lemma LeftStep(notes: seq<Order>, quotes: seq<Quote>, time: Amount)
    requires notes != []
    ensures var k := |notes| - 1; var before, c := Left(notes[..k], quotes, time), ChoiceFor(notes, quotes, time, k);
      && (c.None? ==> Left(notes, quotes, time) == before)
      && (c.Some? ==> notes[k].requested <= before[c.value])
      && (c.Some? ==> Left(notes, quotes, time) == before[c.value := before[c.value] - notes[k].requested])
  {}

  ghost predicate DistinctDexes(quotes: seq<Quote>)
  {
    forall i, j :: 0 <= i < |quotes| && 0 <= j < |quotes| && quotes[i].dex == quotes[j].dex ==> i == j
  }

  /** A snapshot as the router publishes it: for every pair one quote per DEX, the most generous first. */
  ghost predicate QuotesOk(quotes: QuotesByPair)
  {
    forall p :: p in quotes ==> Descending(quotes[p]) && DistinctDexes(quotes[p])
  }

  /** Total fill handed to one DEX on one pair. */
  ghost function HandedTo(picks: seq<Pick>, dex: DexId, p: Pair): nat
  {
    if picks == [] then 0
    else
      var last := picks[|picks| - 1];
      HandedTo(picks[..|picks| - 1], dex, p) + (if last.dex == dex && last.pair == p then last.fill else 0)
  }

  lemma HandedToAppend(picks: seq<Pick>, pick: Pick, dex: DexId, p: Pair)
    ensures HandedTo(picks + [pick], dex, p) == HandedTo(picks, dex, p) + (if pick.dex == dex && pick.pair == p then pick.fill else 0)
  {
    assert (picks + [pick])[..|picks|] == picks;
  }

  /**
   * Capacity and handed fills add up to the supply; if a DEX had several quotes, its fills may exceed what one of them
   * was charged.
   */
  lemma {:induction false} LeftIsUnhanded(pair: Pair, notes: seq<Order>, quotes: seq<Quote>, time: Amount, i: nat)
    requires i < |quotes|
    ensures quotes[i].supply <= Left(notes, quotes, time)[i] + HandedTo(Picked(pair, notes, quotes, time), quotes[i].dex, pair)
    ensures DistinctDexes(quotes) ==>
      quotes[i].supply == Left(notes, quotes, time)[i] + HandedTo(Picked(pair, notes, quotes, time), quotes[i].dex, pair)
  {
    if notes != [] {
      var k := |notes| - 1;
      hide LastFit;
      hide Left;
      hide ChoiceFor;
      LeftIsUnhanded(pair, notes[..k], quotes, time, i);
      LeftStep(notes, quotes, time);
      var c := ChoiceFor(notes, quotes, time, k);
      if c.Some? {
        HandedToAppend(Picked(pair, notes[..k], quotes, time), PickFor(pair, notes[k], quotes[c.value]), quotes[i].dex, pair);
      }
    }
  }

  /** Every pick was the choice for some note, with exactly the picks before it made by then. */
  lemma {:induction false} PickedFrom(pair: Pair, notes: seq<Order>, quotes: seq<Quote>, time: Amount,
      m: nat) returns (k: nat)
    requires m < |Picked(pair, notes, quotes, time)|
    ensures k < |notes| && ChoiceFor(notes, quotes, time, k).Some?
    ensures Picked(pair, notes, quotes, time)[m] == PickFor(pair, notes[k], quotes[ChoiceFor(notes, quotes, time, k).value])
    ensures Picked(pair, notes, quotes, time)[..m] == Picked(pair, notes[..k], quotes, time)
  {
    var n := |notes| - 1;
    var init := Picked(pair, notes[..n], quotes, time);
    if m < |init| {
      k := PickedFrom(pair, notes[..n], quotes, time, m);
      assert notes[..n][..k] == notes[..k];
      assert Picked(pair, notes, quotes, time)[..m] == init[..m];
    } else {
      k := n;
      assert Picked(pair, notes, quotes, time)[..m] == init;
    }
  }

  /** A note is picked if it was left a quote. */
  lemma {:induction false} ChosenIsPicked(pair: Pair, notes: seq<Order>, quotes: seq<Quote>, time: Amount,
      k: nat) returns (m: nat)
    requires k < |notes| && ChoiceFor(notes, quotes, time, k).Some?
    ensures m < |Picked(pair, notes, quotes, time)| && Picked(pair, notes, quotes, time)[m].noteId == notes[k].id
  {
    var n := |notes| - 1;
    if k < n {
      assert notes[..n][..k] == notes[..k];
      m := ChosenIsPicked(pair, notes[..n], quotes, time, k);
    } else {
      m := |Picked(pair, notes[..n], quotes, time)|;
    }
  }

  ghost predicate DistinctIds(notes: seq<Order>)
  {
    forall i, j :: 0 <= i < j < |notes| ==> notes[i].id != notes[j].id
  }

  lemma PickedDistinct(pair: Pair, notes: seq<Order>, quotes: seq<Quote>, time: Amount, l: nat, m: nat)
    requires DistinctIds(notes) && l < m < |Picked(pair, notes, quotes, time)|
    ensures Picked(pair, notes, quotes, time)[l].noteId != Picked(pair, notes, quotes, time)[m].noteId
  {
    var k := PickedFrom(pair, notes, quotes, time, m);
    assert Picked(pair, notes, quotes, time)[..m][l] == Picked(pair, notes, quotes, time)[l];
    var k' := PickedFrom(pair, notes[..k], quotes, time, l);
  }

  // ---------------------------------------------------------------------------
  // All pairs
  // ---------------------------------------------------------------------------

  type NotesByPair = map<Pair, seq<Order>>
  type QuotesByPair = map<Pair, seq<Quote>>

  function NotesAt(notes: NotesByPair, p: Pair): seq<Order> { if p in notes then notes[p] else [] }

  /** No note id occurs twice, within a pair or across pairs. */
  ghost predicate DistinctNotes(notes: NotesByPair)
  {
    forall p, q, i, j :: 0 <= i < |NotesAt(notes, p)| && 0 <= j < |NotesAt(notes, q)| ==>
      (NotesAt(notes, p)[i].id == NotesAt(notes, q)[j].id ==> p == q && i == j)
  }

  ghost predicate DistinctPicks(picks: seq<Pick>)
  {
    forall i, j :: 0 <= i < j < |picks| ==> picks[i].noteId != picks[j].noteId
  }

  /** The picks of one pair, in order. */
  ghost function PicksAt(picks: seq<Pick>, p: Pair): seq<Pick>
  {
    if picks == [] then []
    else
      var init, last := PicksAt(picks[..|picks| - 1], p), picks[|picks| - 1];
      if last.pair == p then init + [last] else init
  }

  /** Per visited pair exactly the reference selection, and nothing else. */
  ghost predicate SelectedFor(notes: NotesByPair, quotes: QuotesByPair, time: Amount, picks: seq<Pick>, done: set<Pair>)
    requires done <= quotes.Keys
  {
    && (forall m :: 0 <= m < |picks| ==> picks[m].pair in done)
    && forall p :: p in done ==> PicksAt(picks, p) == Picked(p, NotesAt(notes, p), quotes[p], time)
  }

  ghost predicate Selection(notes: NotesByPair, quotes: QuotesByPair, time: Amount, picks: seq<Pick>)
  {
    SelectedFor(notes, quotes, time, picks, quotes.Keys)
  }

  lemma {:induction false} PicksAtConcat(s: seq<Pick>, t: seq<Pick>, p: Pair)
    ensures PicksAt(s + t, p) == PicksAt(s, p) + PicksAt(t, p)
  {
    if t == [] {
      assert s + t == s;
    } else {
      PicksAtConcat(s, t[..|t| - 1], p);
      assert (s + t)[..|s + t| - 1] == s + t[..|t| - 1];
    }
  }

  lemma {:induction false} PickedHasPair(pair: Pair, notes: seq<Order>, quotes: seq<Quote>, time: Amount, p: Pair)
    ensures PicksAt(Picked(pair, notes, quotes, time), p) == if p == pair then Picked(pair, notes, quotes, time) else []
    ensures forall m :: 0 <= m < |Picked(pair, notes, quotes, time)| ==> Picked(pair, notes, quotes, time)[m].pair == pair
  {
    hide ChoiceFor;
    if notes != [] {
      var k := |notes| - 1;
      PickedHasPair(pair, notes[..k], quotes, time, p);
      var c := ChoiceFor(notes, quotes, time, k);
      if c.Some? {
        var init, last := Picked(pair, notes[..k], quotes, time), PickFor(pair, notes[k], quotes[c.value]);
        assert (init + [last])[..|init|] == init;
      }
    }
  }

  lemma {:induction false} NoneAt(picks: seq<Pick>, p: Pair)
    requires forall m :: 0 <= m < |picks| ==> picks[m].pair != p
    ensures PicksAt(picks, p) == []
  {
    if picks != [] {
      NoneAt(picks[..|picks| - 1], p);
    }
  }

  lemma SelectedMore(notes: NotesByPair, quotes: QuotesByPair, time: Amount, picks: seq<Pick>, done: set<Pair>, p: Pair)
    requires done <= quotes.Keys && SelectedFor(notes, quotes, time, picks, done) && p in quotes && p !in done
    ensures SelectedFor(notes, quotes, time, picks + Picked(p, NotesAt(notes, p), quotes[p], time), done + {p})
  {
    hide Picked;
    hide PicksAt;
    var more := Picked(p, NotesAt(notes, p), quotes[p], time);
    NoneAt(picks, p);
    forall q | q in done + {p}
      ensures PicksAt(picks + more, q) == Picked(q, NotesAt(notes, q), quotes[q], time)
    {
      PicksAtConcat(picks, more, q);
      PickedHasPair(p, NotesAt(notes, p), quotes[p], time, q);
    }
    PickedHasPair(p, NotesAt(notes, p), quotes[p], time, p);
  }

  /** Select which notes go to which DEX, visiting the quoted pairs in an arbitrary order. */
  method SelectNotes(notes: NotesByPair, quotes: QuotesByPair, time: Amount) returns (picks: seq<Pick>)
    requires forall p :: p in quotes ==> Descending(quotes[p])
    requires forall p, k :: p in notes && 0 <= k < |notes[p]| ==> notes[p][k].Valid()
    ensures Selection(notes, quotes, time, picks)
  {
    picks := [];
    var todo := quotes.Keys;
    assert SelectedFor(notes, quotes, time, [], {});
    assert quotes.Keys - todo == {};
    hide SelectedFor;
    hide Descending;
    while todo != {}
      invariant todo <= quotes.Keys && SelectedFor(notes, quotes, time, picks, quotes.Keys - todo)
      decreases |todo|
    {
      var p :| p in todo;
      var more := MatchPair(p, NotesAt(notes, p), quotes[p], time);
      SelectedMore(notes, quotes, time, picks, quotes.Keys - todo, p);
      assert quotes.Keys - (todo - {p}) == (quotes.Keys - todo) + {p};
      picks := picks + more;
      todo := todo - {p};
    }
    assert quotes.Keys - todo == quotes.Keys;
  }

  // ---------------------------------------------------------------------------
  // What a selection guarantees
  // ---------------------------------------------------------------------------

  /** A pick is listed under its pair behind exactly the earlier picks of that pair. */
  lemma {:induction false} PickListed(picks: seq<Pick>, m: nat)
    requires m < |picks|
    ensures var p := picks[m].pair; var n := |PicksAt(picks[..m], p)|;
      n < |PicksAt(picks, p)| && PicksAt(picks, p)[n] == picks[m] && PicksAt(picks, p)[..n] == PicksAt(picks[..m], p)
  {
    var p := picks[m].pair;
    var init, last := picks[..|picks| - 1], picks[|picks| - 1];
    var n := |PicksAt(picks[..m], p)|;
    if m < |init| {
      PickListed(init, m);
      assert init[..m] == picks[..m];
      assert PicksAt(picks, p)[..n] == PicksAt(init, p)[..n];
    } else {
      assert init == picks[..m];
    }
  }

  lemma {:induction false} HandedAtPair(picks: seq<Pick>, dex: DexId, p: Pair)
    ensures HandedTo(picks, dex, p) == HandedTo(PicksAt(picks, p), dex, p)
  {
    if picks != [] {
      var init, last := picks[..|picks| - 1], picks[|picks| - 1];
      HandedAtPair(init, dex, p);
      HandedToAppend(PicksAt(init, p), last, dex, p);
    }
  }

  /**
   * Where a pick of a selection comes from: the note, its turn, and what its DEX and the others had been handed by
   * then.
   */
  lemma PickOrigin(notes: NotesByPair, quotes: QuotesByPair, time: Amount, picks: seq<Pick>, m: nat) returns (k: nat)
    requires Selection(notes, quotes, time, picks) && m < |picks|
    ensures var p := picks[m].pair; p in quotes && k < |NotesAt(notes, p)| && ChoiceFor(NotesAt(notes, p), quotes[p], time, k).Some?
    ensures var p := picks[m].pair; var c := ChoiceFor(NotesAt(notes, p), quotes[p], time, k).value;
      picks[m] == PickFor(p, NotesAt(notes, p)[k], quotes[p][c])
    ensures var p := picks[m].pair; PicksAt(picks[..m], p) == Picked(p, NotesAt(notes, p)[..k], quotes[p], time)
  {
    var p := picks[m].pair;
    hide Picked;
    hide ChoiceFor;
    PickListed(picks, m);
    k := PickedFrom(p, NotesAt(notes, p), quotes[p], time, |PicksAt(picks[..m], p)|);
  }

  /** A pick hands a whole note of its pair, at the note's own rate, to a usable quote of that pair that it crosses. */
  ghost predicate PickOk(notes: NotesByPair, quotes: QuotesByPair, time: Amount, pick: Pick)
  {
    && pick.pair in quotes
    && exists k, i :: 0 <= k < |NotesAt(notes, pick.pair)| && 0 <= i < |quotes[pick.pair]|
         && Hands(pick, NotesAt(notes, pick.pair)[k], quotes[pick.pair][i], time)
  }

  /** The pick hands the whole note, at its own rate, to a live quote that pays at least that rate. */
  ghost predicate Hands(pick: Pick, note: Order, q: Quote, time: Amount)
  {
    && pick.noteId == note.id && pick.fill == note.requested && pick.dex == q.dex
    && pick.price.requested == note.requested && pick.price.offered == note.offered
    && time < q.expiresAt && 0 < q.supply && 0 < q.demand && note.requested * q.demand <= q.supply * note.offered
  }

  /** Every pick hands a whole note to a usable quote it crosses. */
  lemma SelectionCrosses(notes: NotesByPair, quotes: QuotesByPair, time: Amount, picks: seq<Pick>, m: nat)
    requires Selection(notes, quotes, time, picks) && m < |picks|
    ensures PickOk(notes, quotes, time, picks[m])
  {
    var k := PickOrigin(notes, quotes, time, picks, m);
    var p := picks[m].pair;
    var c := ChoiceFor(NotesAt(notes, p), quotes[p], time, k).value;
    assert Fits(NotesAt(notes, p)[k], quotes[p], Left(NotesAt(notes, p)[..k], quotes[p], time), time, c);
  }

  /** No note is handed out twice. */
  lemma SelectionDistinct(notes: NotesByPair, quotes: QuotesByPair, time: Amount, picks: seq<Pick>)
    requires Selection(notes, quotes, time, picks) && DistinctNotes(notes)
    ensures DistinctPicks(picks)
  {
    forall l, m | 0 <= l < m < |picks|
      ensures picks[l].noteId != picks[m].noteId
    {
      var k' := PickOrigin(notes, quotes, time, picks, l);
      var k := PickOrigin(notes, quotes, time, picks, m);
      if picks[l].pair == picks[m].pair {
        SamePairDistinct(notes, quotes, time, picks, l, m);
      }
    }
  }

  lemma SamePairDistinct(notes: NotesByPair, quotes: QuotesByPair, time: Amount, picks: seq<Pick>, l: nat, m: nat)
    requires Selection(notes, quotes, time, picks) && DistinctNotes(notes) && l < m < |picks| && picks[l].pair == picks[m].pair
    ensures picks[l].noteId != picks[m].noteId
  {
    var p := picks[m].pair;
    hide Picked;
    assert DistinctIds(NotesAt(notes, p)) && PicksAt(picks, p) == Picked(p, NotesAt(notes, p), quotes[p], time);
    hide DistinctNotes;
    hide Selection;
    hide DistinctIds;
    var i, j := ListedInOrder(picks, l, m);
    PickedDistinct(p, NotesAt(notes, p), quotes[p], time, i, j);
  }

  /** Two picks of one pair are listed under it in their order. */
  lemma ListedInOrder(picks: seq<Pick>, l: nat, m: nat) returns (i: nat, j: nat)
    requires l < m < |picks| && picks[l].pair == picks[m].pair
    ensures var at := PicksAt(picks, picks[m].pair); i < j < |at| && at[i] == picks[l] && at[j] == picks[m]
  {
    hide PicksAt;
    PickListed(picks, m);
    PickListed(picks[..m], l);
    var p := picks[m].pair;
    assert picks[..m][..l] == picks[..l];
    i, j := |PicksAt(picks[..l], p)|, |PicksAt(picks[..m], p)|;
    assert PicksAt(picks, p)[..j][i] == PicksAt(picks[..m], p)[i];
  }

  /** No quote is charged beyond its supply. */
  lemma SelectionWithinSupply(notes: NotesByPair, quotes: QuotesByPair, time: Amount, picks: seq<Pick>, p: Pair, i: nat)
    requires Selection(notes, quotes, time, picks) && p in quotes && i < |quotes[p]| && DistinctDexes(quotes[p])
    ensures HandedTo(picks, quotes[p][i].dex, p) <= quotes[p][i].supply
  {
    HandedAtPair(picks, quotes[p][i].dex, p);
    LeftIsUnhanded(p, NotesAt(notes, p), quotes[p], time, i);
  }

  /** Quote `i` of pair `p` could take the note on top of what the picks hand to its DEX. */
  ghost predicate HasRoom(note: Order, q: Quote, time: Amount, picks: seq<Pick>, p: Pair)
  {
    && time < q.expiresAt && 0 < q.supply && 0 < q.demand && note.requested * q.demand <= q.supply * note.offered
    && note.requested + HandedTo(picks, q.dex, p) <= q.supply
  }

  /** Tightness: of all quotes that had room when a note was picked, it went to one with the smallest rate. */
  lemma SelectionTightest(notes: NotesByPair, quotes: QuotesByPair, time: Amount, picks: seq<Pick>, m: nat, k: nat,
      j: nat)
    requires Selection(notes, quotes, time, picks) && m < |picks| && picks[m].pair in quotes
    requires var p := picks[m].pair; Descending(quotes[p]) && j < |quotes[p]|
    requires var p := picks[m].pair; DistinctIds(NotesAt(notes, p)) && k < |NotesAt(notes, p)| && NotesAt(notes, p)[k].id == picks[m].noteId
    requires var p := picks[m].pair; NotesAt(notes, p)[k].Valid() && HasRoom(NotesAt(notes, p)[k], quotes[p][j], time, picks[..m], p)
    ensures var p := picks[m].pair;
      exists c :: 0 <= c < |quotes[p]| && quotes[p][c].dex == picks[m].dex && quotes[p][c].Rate().AtMost(quotes[p][j].Rate())
  {
    var p := picks[m].pair;
    var all, qs := NotesAt(notes, p), quotes[p];
    var k' := PickOrigin(notes, quotes, time, picks, m);
    assert k' == k;
    HandedAtPair(picks[..m], qs[j].dex, p);
    LeftIsUnhanded(p, all[..k], qs, time, j);
    LastFitIsTightest(all[k], qs, Left(all[..k], qs, time), time, j);
    assert qs[ChoiceFor(all, qs, time, k).value].dex == picks[m].dex;
  }

  /** Maximality: a note nobody was handed fits no quote on top of everything its DEX was handed. */
  lemma SelectionMaximal(notes: NotesByPair, quotes: QuotesByPair, time: Amount, picks: seq<Pick>, p: Pair, k: nat,
      i: nat)
    requires Selection(notes, quotes, time, picks) && p in quotes && k < |NotesAt(notes, p)| && i < |quotes[p]|
    requires forall m :: 0 <= m < |picks| ==> picks[m].noteId != NotesAt(notes, p)[k].id
    ensures !HasRoom(NotesAt(notes, p)[k], quotes[p][i], time, picks, p)
  {
    var all, qs := NotesAt(notes, p), quotes[p];
    if ChoiceFor(all, qs, time, k).Some? {
      var m := ChosenIsPicked(p, all, qs, time, k);
      var n := ListedPick(picks, p, m);
      assert false;
    }
    LeftShrinks(all, qs, time, k, i);
    HandedAtPair(picks, qs[i].dex, p);
    LeftIsUnhanded(p, all, qs, time, i);
    assert !Fits(all[k], qs, Left(all[..k], qs, time), time, i);
  }

  lemma {:induction false} ListedPick(picks: seq<Pick>, p: Pair, n: nat) returns (m: nat)
    requires n < |PicksAt(picks, p)|
    ensures m < |picks| && picks[m] == PicksAt(picks, p)[n]
  {
    var init := picks[..|picks| - 1];
    if n < |PicksAt(init, p)| {
      m := ListedPick(init, p, n);
    } else {
      m := |picks| - 1;
    }
  }
}
