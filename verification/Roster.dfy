/**
 The list of user names a client keeps, built only from the packets it receives:
 a list replaces it, a join adds unless present, a leave removes the first match.
 Names are compared ignoring ASCII case.
 */
module Roster {
  import opened Common

  datatype Note = Joined(name: string) | Left(name: string) | Users(names: seq<string>) | SystemText

  function LowerChar(c: char): char {
    if 'A' <= c <= 'Z' then c + ' ' else c
  }

  function Fold(s: string): (f: string)
    ensures |f| == |s|
  {
    seq(|s|, i requires 0 <= i < |s| => LowerChar(s[i]))
  }

  predicate Matches(a: string, b: string) {
    Fold(a) == Fold(b)
  }

  /** Names match when they differ at most in the case of letters from A to Z. */
  lemma {:induction false} MatchesIff(a: string, b: string)
    ensures Matches(a, b) <==> |a| == |b| && forall i :: 0 <= i < |a| ==> SameLetter(a[i], b[i])
  {
    if |a| == |b| {
      forall i | 0 <= i < |a|
        ensures Fold(a)[i] == Fold(b)[i] <==> SameLetter(a[i], b[i])
      {
        LowerIff(a[i], b[i]);
      }
    } else {
      assert |Fold(a)| != |Fold(b)|;
    }
  }

  lemma {:induction false} LowerIff(c: char, d: char)
    ensures LowerChar(c) == LowerChar(d) <==> SameLetter(c, d)
  {
    Lowered(c);
    Lowered(d);
  }

  lemma {:induction false} Lowered(c: char)
    ensures LowerChar(c) as int == if 'A' <= c <= 'Z' then c as int + 32 else c as int
  {
  }

  predicate SameLetter(c: char, d: char) {
    || c == d
    || ('A' <= c <= 'Z' && d as int == c as int + 32)
    || ('A' <= d <= 'Z' && c as int == d as int + 32)
  }

  /** find_user_from_list, as the index of the first match or the length. */
  function Find(r: seq<string>, x: string): (i: nat)
    ensures i <= |r|
    ensures i < |r| ==> Matches(r[i], x)
    ensures forall j :: 0 <= j < i ==> !Matches(r[j], x)
  {
    if r == [] then 0 else if Matches(r[0], x) then 0 else 1 + Find(r[1..], x)
  }

  function Add(r: seq<string>, x: string): seq<string> {
    if Find(r, x) < |r| then r else r + [x]
  }

  function Remove(r: seq<string>, x: string): seq<string> {
    var i := Find(r, x);
    if i < |r| then r[..i] + r[i + 1..] else r
  }

  function AddAll(r: seq<string>, names: seq<string>): seq<string> {
    if names == [] then r else Add(AddAll(r, names[..|names| - 1]), names[|names| - 1])
  }

  function Apply(r: seq<string>, n: Note): seq<string> {
    match n
    case Joined(x) => Add(r, x)
    case Left(x) => Remove(r, x)
    case Users(names) => AddAll([], names)
    case SystemText => r
  }

  function Replay(notes: seq<Note>): seq<string> {
    if notes == [] then [] else Apply(Replay(notes[..|notes| - 1]), notes[|notes| - 1])
  }

  lemma {:induction false} ReplaySnoc(notes: seq<Note>, n: Note)
    ensures Replay(notes + [n]) == Apply(Replay(notes), n)
  {
    assert (notes + [n])[..|notes|] == notes;
  }

  /** No two names of the set differ only in case. */
  ghost predicate CaseDistinct(names: set<string>) {
    forall x, y :: x in names && y in names && Matches(x, y) ==> x == y
  }

  /** No two entries match. */
  ghost predicate Distinct(r: seq<string>) {
    forall i, j :: 0 <= i < j < |r| ==> !Matches(r[i], r[j])
  }

  lemma {:induction false} AddExact(r: seq<string>, x: string)
    requires Distinct(r) && CaseDistinct(Elements(r) + {x})
    ensures Distinct(Add(r, x)) && Elements(Add(r, x)) == Elements(r) + {x}
  {
    var i := Find(r, x);
    if i < |r| {
      assert r[i] in Elements(r) + {x} && x in Elements(r) + {x};
      assert r[i] == x;
    } else {
      assert forall j :: 0 <= j < |r| ==> !Matches(r[j], x);
    }
  }

  lemma {:induction false} RemoveExact(r: seq<string>, x: string)
    requires Distinct(r) && CaseDistinct(Elements(r) + {x})
    ensures Distinct(Remove(r, x)) && Elements(Remove(r, x)) == Elements(r) - {x}
  {
    var i := Find(r, x);
    if i < |r| {
      assert r[i] in Elements(r) + {x} && x in Elements(r) + {x};
      assert forall j :: i < j < |r| ==> r[j] != x;
      DropsOne(r, i);
    } else {
      assert x !in r;
    }
  }

  lemma {:induction false} DropsOne(r: seq<string>, i: nat)
    requires Distinct(r) && i < |r|
    requires forall j :: 0 <= j < |r| && j != i ==> r[j] != r[i]
    ensures Distinct(r[..i] + r[i + 1..]) && Elements(r[..i] + r[i + 1..]) == Elements(r) - {r[i]}
  {
    var a, b := r[..i], r[i + 1..];
    assert r == a + [r[i]] + b;
    assert r[i] !in a && r[i] !in b;
  }

  lemma {:induction false} AddAllExact(names: seq<string>)
    requires CaseDistinct(Elements(names))
    ensures Distinct(AddAll([], names)) && Elements(AddAll([], names)) == Elements(names)
  {
    if names != [] {
      var front, x := names[..|names| - 1], names[|names| - 1];
      assert names == front + [x];
      assert Elements(names) == Elements(front) + {x};
      AddAllExact(front);
      AddExact(AddAll([], front), x);
    }
  }

  /** A listing is shown name for name exactly when no two of its names differ only in case. */
  lemma {:induction false} ListingExact(names: seq<string>)
    ensures Elements(Apply([], Users(names))) == Elements(names) <==> CaseDistinct(Elements(names))
  {
    if CaseDistinct(Elements(names)) {
      AddAllExact(names);
    } else {
      var x, y :| x in names && y in names && Matches(x, y) && x != y;
      AddAllDistinct(names);
      var r := AddAll([], names);
      if x in r {
        OnlyOne(r, x, y);
      }
    }
  }

  lemma {:induction false} OnlyOne(r: seq<string>, x: string, y: string)
    requires Distinct(r) && Matches(x, y) && x != y && x in r
    ensures y !in r
  {
    forall j | 0 <= j < |r|
      ensures r[j] != y
    {
      var i :| 0 <= i < |r| && r[i] == x;
      assert i < j || j < i || i == j;
    }
  }

  lemma {:induction false} AddAllDistinct(names: seq<string>)
    ensures Distinct(AddAll([], names))
  {
    if names != [] {
      AddAllDistinct(names[..|names| - 1]);
    }
  }

  /** Order: a new name goes to the end, and a leaver's place closes up. */
  lemma {:induction false} InOrder(r: seq<string>, x: string)
    requires Distinct(r) && CaseDistinct(Elements(r) + {x})
    ensures x !in r ==> Add(r, x) == r + [x] && Remove(r, x) == r
    ensures x in r ==> Add(r, x) == r
    ensures forall i :: 0 <= i < |r| && r[i] == x ==> Remove(r, x) == r[..i] + r[i + 1..]
  {
    var f := Find(r, x);
    if f < |r| {
      assert r[f] in Elements(r) + {x} && x in Elements(r) + {x};
      assert r[f] == x;
    }
    forall i | 0 <= i < |r| && r[i] == x
      ensures i == f
    {
      OnePlace(r, f, i);
    }
  }

  lemma {:induction false} OnePlace(r: seq<string>, i: nat, j: nat)
    requires Distinct(r) && i < |r| && j < |r| && Matches(r[i], r[j])
    ensures i == j
  {
    assert !(i < j) && !(j < i);
  }

  /** A listing of different names is shown in its own order. */
  lemma {:induction false} ListingInOrder(r: seq<string>, names: seq<string>)
    requires NoDuplicates(names) && CaseDistinct(Elements(names))
    ensures Apply(r, Users(names)) == names
  {
    if names != [] {
      var front, x := names[..|names| - 1], names[|names| - 1];
      assert names == front + [x];
      assert Elements(names) == Elements(front) + {x};
      ListingInOrder(r, front);
      AddAllDistinct(front);
      InOrder(front, x);
    }
  }
}
