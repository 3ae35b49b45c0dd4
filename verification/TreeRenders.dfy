/**
  Overlapping renders of the file explorer.  Each render puts a placeholder into the page, waits
  for listings and then replaces whatever the page shows, so the last one to finish wins.
 */
module TreeRenders {
  import opened Basics

  /** The filters of the renders under way, the filter of the tree shown, and the filter last asked for. */
  datatype World = World(pending: multiset<string>, shown: Option<string>, asked: string)

  datatype Event = Begin(filter: string) | Finish(filter: string)

  const START := World(multiset{}, None, "")

  function Next(w: World, e: Event): World {
    match e
    case Begin(filter) => World(w.pending + multiset{filter}, None, filter)
    case Finish(filter) =>
      if filter in w.pending then World(w.pending - multiset{filter}, Some(filter), w.asked) else w
  }

  function Run(w: World, es: seq<Event>): World
    decreases |es|
  {
    if es == [] then w else Run(Next(w, es[0]), es[1..])
  }

  predicate BeginsNothing(es: seq<Event>) {
    forall i :: 0 <= i < |es| ==> es[i].Finish?
  }

  /** The renders under way all finish and no other begins. */
  predicate Settles(w: World, es: seq<Event>) {
    BeginsNothing(es) && Run(w, es).pending == multiset{}
  }

  predicate AllAsked(w: World) {
    forall filter :: filter in w.pending ==> filter == w.asked
  }

  lemma {:induction false} AskedIsShown(w: World, es: seq<Event>)
    requires AllAsked(w) && BeginsNothing(es)
    ensures var end := Run(w, es);
      end.asked == w.asked && (end.shown == Some(w.asked) || (end.shown == w.shown && end.pending == w.pending))
    decreases |es|
  {
    if es != [] {
      AskedIsShown(Next(w, es[0]), es[1..]);
    }
  }

  /** Any render under way can be the last to finish. */
  lemma {:induction false} CanFinishLast(w: World, filter: string) returns (es: seq<Event>)
    requires filter in w.pending
    ensures Settles(w, es) && Run(w, es).shown == Some(filter)
    decreases |w.pending|
  {
    var others := w.pending - multiset{filter};
    if others == multiset{} {
      es := [Finish(filter)];
      assert es[1..] == [];
    } else {
      var other :| other in others;
      var rest := CanFinishLast(Next(w, Finish(other)), filter);
      es := [Finish(other)] + rest;
      assert es[1..] == rest;
    }
  }

  /**
    However the renders under way finish, the tree shown in the end is that of the filter last
    asked for exactly when every one of them was begun with that filter.
   */
  lemma ShowsLastFilterExactlyWhen(w: World)
    requires w.pending != multiset{}
    ensures (forall es: seq<Event> | Settles(w, es) :: Run(w, es).shown == Some(w.asked)) <==> AllAsked(w)
  {
    if AllAsked(w) {
      forall es: seq<Event> | Settles(w, es)
        ensures Run(w, es).shown == Some(w.asked)
      {
        AskedIsShown(w, es);
      }
    } else {
      var filter :| filter in w.pending && filter != w.asked;
      var es := CanFinishLast(w, filter);
      assert Settles(w, es);
    }
  }

  /** Two renders that overlap can leave the tree of the older filter. */
  lemma OlderFilterIsShown(older: string, newer: string)
    requires older != newer
    ensures Run(START, [Begin(older), Begin(newer), Finish(newer), Finish(older)]) == World(multiset{}, Some(older), newer)
  {
    var one := World(multiset{older}, None, older);
    var two := World(multiset{older, newer}, None, newer);
    assert Next(START, Begin(older)) == one && Next(one, Begin(newer)) == two;
    var three := World(multiset{older}, Some(newer), newer);
    assert Next(two, Finish(newer)) == three;
    assert [Begin(older), Begin(newer), Finish(newer), Finish(older)][1..] == [Begin(newer), Finish(newer), Finish(older)];
    assert [Begin(newer), Finish(newer), Finish(older)][1..] == [Finish(newer), Finish(older)];
    assert [Finish(newer), Finish(older)][1..] == [Finish(older)] && [Finish(older)][1..] == [];
    assert Run(three, [Finish(older)]) == Next(three, Finish(older));
    assert Run(two, [Finish(newer), Finish(older)]) == Run(three, [Finish(older)]);
  }
}
