/** The letters that name agent sessions, and their storage across page reloads. */
module Letters {
  import opened Basics
  import opened Text
  import Decimal

  /** A to Z, then A1 to Z1, A2 to Z2 and so on. */
  function Letter(idx: nat): string {
    [('A' as int + idx % 26) as char] + if idx < 26 then "" else Decimal.Print(idx / 26)
  }

  lemma LetterIsInjective(i: nat, j: nat)
    requires Letter(i) == Letter(j)
    ensures i == j
  {
    var a, b := Letter(i), Letter(j);
    assert a[0] == b[0] && a[1..] == b[1..];
    Decimal.PrintThenValue(i / 26);
    Decimal.PrintThenValue(j / 26);
    assert a[1..] == if i < 26 then "" else Decimal.Print(i / 26);
    assert b[1..] == if j < 26 then "" else Decimal.Print(j / 26);
    if i >= 26 {
      Decimal.PrintIsInjective(i / 26, j / 26);
    }
  }

  /** The next free index, and the letters in the order in which they were given out. */
  datatype Registry = Registry(next: nat, letters: seq<(string, string)>)

  function Lookup(letters: seq<(string, string)>, id: string): Option<string> {
    if letters == [] then None
    else if letters[0].0 == id then Some(letters[0].1) else Lookup(letters[1..], id)
  }

  function Assign(r: Registry, id: string): Registry {
    if Lookup(r.letters, id).Some? then r
    else Registry(r.next + 1, r.letters + [(id, Letter(r.next))])
  }

  /** The first session whose letter equals the upper-cased argument. */
  function Holder(letters: seq<(string, string)>, letter: string): Option<string> {
    if letters == [] then None
    else if letters[0].1 == Upper(letter) then Some(letters[0].0) else Holder(letters[1..], letter)
  }

  const FRESH := Registry(0, [])

  /** The manager's letter fields with the snapshot held in session storage. */
  class LetterRegistry {
    var nextLetterIndex: nat
    var agentLetters: seq<(string, string)>
    var stored: Option<Registry>

    ghost function Value(): Registry
      reads this
    {
      Registry(nextLetterIndex, agentLetters)
    }

    /** A page load: start empty, then take over what session storage holds. */
    constructor (stored: Option<Registry>)
      ensures Value() == (if stored.Some? then stored.value else FRESH) && this.stored == stored
    {
      nextLetterIndex, agentLetters := 0, [];
      this.stored := stored;
      if stored.Some? {
        nextLetterIndex, agentLetters := stored.value.next, stored.value.letters;
      }
    }

    method Get(id: string) returns (letter: Option<string>)
      ensures letter == Lookup(agentLetters, id)
    {
      var i := 0;
      while i < |agentLetters|
        invariant 0 <= i <= |agentLetters|
        invariant Lookup(agentLetters, id) == Lookup(agentLetters[i..], id)
      {
        if agentLetters[i].0 == id {
          return Some(agentLetters[i].1);
        }
        assert agentLetters[i..][1..] == agentLetters[i + 1..];
        i := i + 1;
      }
      letter := None;
    }

    /** `storageWorks` is false when session storage is full or unavailable. */
    method AssignLetter(id: string, storageWorks: bool) returns (letter: string)
      modifies this
      ensures Value() == Assign(old(Value()), id)
      ensures Lookup(agentLetters, id) == Some(letter)
      ensures stored == if storageWorks && Value() != old(Value()) then Some(Value()) else old(stored)
    {
      var known := Get(id);
      if known.Some? {
        return known.value;
      }
      var idx := nextLetterIndex;
      nextLetterIndex := nextLetterIndex + 1;
      var suffix := if idx < 26 then "" else Decimal.Print(idx / 26);
      letter := [('A' as int + idx % 26) as char] + suffix;
      LookupSnoc(agentLetters, id, letter, id);
      agentLetters := agentLetters + [(id, letter)];
      if storageWorks {
        stored := Some(Registry(nextLetterIndex, agentLetters));
      }
    }

    method FindSessionByLetter(letter: string) returns (session: Option<string>)
      ensures session == Holder(agentLetters, letter)
    {
      var target := Upper(letter);
      var i := 0;
      while i < |agentLetters|
        invariant 0 <= i <= |agentLetters|
        invariant Holder(agentLetters, letter) == Holder(agentLetters[i..], letter)
      {
        if agentLetters[i].1 == target {
          return Some(agentLetters[i].0);
        }
        assert agentLetters[i..][1..] == agentLetters[i + 1..];
        i := i + 1;
      }
      session := None;
    }
  }

  lemma {:induction false} LookupSnoc(letters: seq<(string, string)>, id: string, letter: string, other: string)
    ensures Lookup(letters + [(id, letter)], other) ==
            if Lookup(letters, other).Some? then Lookup(letters, other)
            else if other == id then Some(letter) else None
  {
    var more := letters + [(id, letter)];
    if letters == [] {
      assert more[1..] == [];
    } else {
      assert more[1..] == letters[1..] + [(id, letter)];
      LookupSnoc(letters[1..], id, letter, other);
    }
  }

  // ---------------------------------------------------------------- runs

  /** A page: its registry, and every snapshot that was ever written to session storage. */
  datatype World = World(registry: Registry, saved: seq<Registry>)

  /** A reload may find any snapshot written so far, or none. */
  datatype Event = Name(id: string, persists: bool) | Reload(from: Option<nat>)

  const START := World(FRESH, [])

  function Next(w: World, e: Event): World {
    match e
    case Name(id, persists) =>
      var r := Assign(w.registry, id);
      World(r, if persists then w.saved + [r] else w.saved)
    case Reload(from) =>
      w.(registry := if from.Some? && from.value < |w.saved| then w.saved[from.value] else FRESH)
  }

  function Run(w: World, es: seq<Event>): World {
    if es == [] then w else Next(Run(w, es[..|es| - 1]), es[|es| - 1])
  }

  predicate Given(letter: string, next: nat) {
    exists k :: 0 <= k < next && letter == Letter(k)
  }

  /** No session is named twice, no letter is given twice, and every letter has an index already used. */
  predicate Consistent(r: Registry) {
    && (forall i, j :: 0 <= i < j < |r.letters| ==> r.letters[i].0 != r.letters[j].0)
    && (forall i, j :: 0 <= i < j < |r.letters| ==> r.letters[i].1 != r.letters[j].1)
    && (forall i :: 0 <= i < |r.letters| ==> Given(r.letters[i].1, r.next))
  }

  lemma {:induction false} LookupFinds(letters: seq<(string, string)>, id: string)
    ensures Lookup(letters, id).None? <==> forall i :: 0 <= i < |letters| ==> letters[i].0 != id
    ensures Lookup(letters, id).Some? ==> exists i :: 0 <= i < |letters| && letters[i] == (id, Lookup(letters, id).value)
  {
    if letters != [] {
      LookupFinds(letters[1..], id);
      assert forall i :: 0 < i < |letters| ==> letters[i] == letters[1..][i - 1];
      if letters[0].0 == id {
        assert letters[0] == (id, letters[0].1);
      } else if Lookup(letters[1..], id).Some? {
        var i :| 0 <= i < |letters[1..]| && letters[1..][i] == (id, Lookup(letters[1..], id).value);
        assert letters[i + 1] == letters[1..][i];
      }
    }
  }

  lemma AssignIsConsistent(r: Registry, id: string)
    requires Consistent(r)
    ensures Consistent(Assign(r, id))
  {
    if Lookup(r.letters, id).None? {
      var r' := Assign(r, id);
      LookupFinds(r.letters, id);
      forall i | 0 <= i < |r.letters|
        ensures r.letters[i].1 != Letter(r.next) && Given(r.letters[i].1, r'.next)
      {
        var k :| 0 <= k < r.next && r.letters[i].1 == Letter(k);
        if Letter(k) == Letter(r.next) {
          LetterIsInjective(k, r.next);
        }
      }
      assert Given(Letter(r.next), r'.next);
    }
  }

  /** In every run of naming, saving and reloading, letters stay pairwise distinct. */
  lemma {:induction false} RunsAreConsistent(es: seq<Event>)
    ensures Consistent(Run(START, es).registry)
    ensures forall k :: 0 <= k < |Run(START, es).saved| ==> Consistent(Run(START, es).saved[k])
  {
    if es != [] {
      RunsAreConsistent(es[..|es| - 1]);
      var w, e := Run(START, es[..|es| - 1]), es[|es| - 1];
      if e.Name? {
        AssignIsConsistent(w.registry, e.id);
      }
    }
  }

  /** The letters are given out without gaps, from the first one on. */
  predicate IsDense(r: Registry) {
    r.next == |r.letters| && forall i :: 0 <= i < |r.letters| ==> r.letters[i].1 == Letter(i)
  }

  lemma {:induction false} RunsAreDense(es: seq<Event>)
    ensures IsDense(Run(START, es).registry)
    ensures forall k :: 0 <= k < |Run(START, es).saved| ==> IsDense(Run(START, es).saved[k])
  {
    if es != [] {
      RunsAreDense(es[..|es| - 1]);
    }
  }

  /** A to Z come first, and a number behind the letter counts the rounds through them. */
  function IndexOf(letter: string): nat
    requires letter != "" && 'A' <= letter[0] <= 'Z' && Decimal.AllDigits(letter[1..])
  {
    (letter[0] as int - 'A' as int) + 26 * Decimal.Value(letter[1..])
  }

  lemma IndexOfLetter(k: nat)
    ensures var letter := Letter(k);
      letter != "" && 'A' <= letter[0] <= 'Z' && Decimal.AllDigits(letter[1..]) && IndexOf(letter) == k
    ensures k < 26 ==> |Letter(k)| == 1
  {
    Decimal.PrintThenValue(k / 26);
    assert Letter(k)[1..] == if k < 26 then "" else Decimal.Print(k / 26);
  }

  /** What was named and stored is found again after a reload of that snapshot. */
  lemma ReloadFindsStored(w: World, id: string)
    ensures var named := Next(w, Name(id, true));
      && |named.saved| == |w.saved| + 1
      && Next(named, Reload(Some(|w.saved|))).registry == named.registry
      && Lookup(named.registry.letters, id).Some?
  {
    if Lookup(w.registry.letters, id).None? {
      LookupSnoc(w.registry.letters, id, Letter(w.registry.next), id);
    }
  }

  /** Between reloads a session keeps the letter it has. */
  lemma {:induction false} LettersAreKept(w: World, es: seq<Event>, id: string)
    requires forall e :: e in es ==> e.Name?
    requires Lookup(w.registry.letters, id).Some?
    ensures Lookup(Run(w, es).registry.letters, id) == Lookup(w.registry.letters, id)
  {
    if es != [] {
      LettersAreKept(w, es[..|es| - 1], id);
      var before, e := Run(w, es[..|es| - 1]).registry, es[|es| - 1];
      assert e in es;
      LookupSnoc(before.letters, e.id, Letter(before.next), id);
    }
  }

  lemma LetterIsUpper(k: nat)
    ensures Upper(Letter(k)) == Letter(k)
  {
    Decimal.PrintThenValue(k / 26);
  }

  lemma {:induction false} HolderFinds(letters: seq<(string, string)>, letter: string)
    ensures Holder(letters, letter).None? <==> forall i :: 0 <= i < |letters| ==> letters[i].1 != Upper(letter)
    ensures Holder(letters, letter).Some? ==>
      exists i :: 0 <= i < |letters| && letters[i] == (Holder(letters, letter).value, Upper(letter))
  {
    if letters != [] {
      HolderFinds(letters[1..], letter);
      assert forall i :: 0 < i < |letters| ==> letters[i] == letters[1..][i - 1];
      if letters[0].1 == Upper(letter) {
        assert letters[0] == (letters[0].0, Upper(letter));
      } else if Holder(letters[1..], letter).Some? {
        var i :| 0 <= i < |letters[1..]| && letters[1..][i] == (Holder(letters[1..], letter).value, Upper(letter));
        assert letters[i + 1] == letters[1..][i];
      }
    }
  }

  /** Finding a session by letter, in either case, is the exact inverse of looking its letter up. */
  lemma FindIsInverse(r: Registry, id: string, letter: string)
    requires Consistent(r)
    ensures Holder(r.letters, letter) == Some(id) <==> Lookup(r.letters, id) == Some(Upper(letter))
  {
    HolderFinds(r.letters, letter);
    LookupFinds(r.letters, id);
    if Holder(r.letters, letter) == Some(id) {
      var i :| 0 <= i < |r.letters| && r.letters[i] == (id, Upper(letter));
      var j :| 0 <= j < |r.letters| && r.letters[j] == (id, Lookup(r.letters, id).value);
      assert i == j;
    }
    if Lookup(r.letters, id) == Some(Upper(letter)) {
      var j :| 0 <= j < |r.letters| && r.letters[j] == (id, Upper(letter));
      var i :| 0 <= i < |r.letters| && r.letters[i] == (Holder(r.letters, letter).value, Upper(letter));
      assert i == j;
    }
  }
}
