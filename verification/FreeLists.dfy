/** Linked free lists as sequences, and the multiset of everything on a family of lists. */
module FreeLists {

  /** Everything on the lists, with multiplicity. */
  ghost function Mass(ls: seq<seq<nat>>): multiset<nat> {
    if ls == [] then multiset{} else multiset(ls[0]) + Mass(ls[1..])
  }

  /** A list without page p. */
  function Without(s: seq<nat>, p: nat): seq<nat> {
    if s == [] then []
    else if s[0] == p then Without(s[1..], p)
    else [s[0]] + Without(s[1..], p)
  }

  /** `list_del`: page p leaves whichever list it is on. */
  function Unlink(ls: seq<seq<nat>>, p: nat): (r: seq<seq<nat>>)
    ensures |r| == |ls|
    ensures forall t :: 0 <= t < |ls| ==> r[t] == Without(ls[t], p)
  {
    if ls == [] then [] else [Without(ls[0], p)] + Unlink(ls[1..], p)
  }

  /** `list_add`: page p becomes the first entry of list t. */
  function Push(ls: seq<seq<nat>>, t: nat, p: nat): (r: seq<seq<nat>>)
    requires t < |ls|
  {
    ls[t := [p] + ls[t]]
  }

  lemma {:induction false} WithoutMass(s: seq<nat>, p: nat)
    ensures multiset(Without(s, p)) == multiset(s)[p := 0]
  {
    if s != [] {
      WithoutMass(s[1..], p);
      assert s == [s[0]] + s[1..];
    }
  }

  lemma {:induction false} UnlinkMass(ls: seq<seq<nat>>, p: nat)
    ensures Mass(Unlink(ls, p)) == Mass(ls)[p := 0]
  {
    if ls != [] {
      WithoutMass(ls[0], p);
      UnlinkMass(ls[1..], p);
      assert Unlink(ls, p)[1..] == Unlink(ls[1..], p);
    }
  }

  lemma {:induction false} UpdateMass(ls: seq<seq<nat>>, t: nat, s: seq<nat>)
    requires t < |ls|
    ensures multiset(ls[t]) <= Mass(ls)
    ensures Mass(ls[t := s]) == Mass(ls) - multiset(ls[t]) + multiset(s)
  {
    var r := ls[t := s];
    if t == 0 {
      assert r[1..] == ls[1..];
    } else {
      UpdateMass(ls[1..], t - 1, s);
      assert r[1..] == ls[1..][t - 1 := s];
    }
  }

  lemma PushMass(ls: seq<seq<nat>>, t: nat, p: nat)
    requires t < |ls|
    ensures Mass(Push(ls, t, p)) == Mass(ls) + multiset{p}
  {
    UpdateMass(ls, t, [p] + ls[t]);
  }

  lemma {:induction false} OnSomeList(ls: seq<seq<nat>>, p: nat) returns (t: nat)
    requires p in Mass(ls)
    ensures t < |ls| && p in ls[t]
  {
    if p in ls[0] {
      t := 0;
    } else {
      t := OnSomeList(ls[1..], p);
      t := t + 1;
    }
  }

  lemma {:induction false} MassEmpty(ls: seq<seq<nat>>)
    ensures Mass(ls) == multiset{} <==> forall t :: 0 <= t < |ls| ==> ls[t] == []
  {
    if ls != [] {
      MassEmpty(ls[1..]);
      NoneOrSome(multiset(ls[0]), Mass(ls[1..]));
      if ls[0] != [] { assert ls[0][0] in multiset(ls[0]); }
      HeadAndTail(ls);
    }
  }

  lemma HeadAndTail(ls: seq<seq<nat>>)
    requires ls != []
    ensures (forall t :: 0 <= t < |ls| ==> ls[t] == []) <==>
            ls[0] == [] && forall t :: 0 <= t < |ls[1..]| ==> ls[1..][t] == []
  {
    if ls[0] == [] && forall t :: 0 <= t < |ls[1..]| ==> ls[1..][t] == [] {
      forall t | 0 <= t < |ls| ensures ls[t] == [] {
        if t > 0 { assert ls[t] == ls[1..][t - 1]; }
      }
    }
  }

  lemma NoneOrSome(a: multiset<nat>, b: multiset<nat>)
    ensures a + b == multiset{} <==> a == multiset{} && b == multiset{}
  {
    if a + b == multiset{} {
      forall x: nat ensures a[x] == 0 && b[x] == 0 { assert (a + b)[x] == 0; }
    }
  }

  lemma NonEmptyList(ls: seq<seq<nat>>) returns (t: nat)
    requires Mass(ls) != multiset{}
    ensures t < |ls| && ls[t] != []
  {
    MassEmpty(ls);
    t :| t < |ls| && ls[t] != [];
  }
}
