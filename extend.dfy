/**
 * The action manager: the ordered list of registered actioners, the
 * actions they offer for an object, and lookup of actioners by class and
 * name.
 */
module Extend {
  import opened Values
  import opened Actioners
  import Seqs

  /** The `(action, actioner)` pairs one actioner offers for `s`, in its own order. */
  function Offers(a: Actioner, s: Subject): (pairs: seq<(string, Actioner)>)
    ensures Probe(a, s).None? ==> pairs == []
    ensures Probe(a, s).Some? ==>
              |pairs| == |Probe(a, s).value| &&
              forall i :: 0 <= i < |pairs| ==> pairs[i] == (Probe(a, s).value[i], a)
  {
    match Probe(a, s)
    case None => []
    case Some(actions) => seq(|actions|, i requires 0 <= i < |actions| => (actions[i], a))
  }

  /** What `probe` gives: every actioner's offers, in registration order. */
  function AllOffers(actioners: seq<Actioner>, s: Subject): seq<(string, Actioner)> {
    if actioners == [] then []
    else AllOffers(actioners[..|actioners| - 1], s) + Offers(actioners[|actioners| - 1], s)
  }

  /** How many actions `a` offers for `s`; none when its probe gives None. */
  function ActionCount(a: Actioner, s: Subject): nat {
    if Probe(a, s).None? then 0 else |Probe(a, s).value|
  }

  function TotalActions(actioners: seq<Actioner>, s: Subject): nat {
    if actioners == [] then 0
    else TotalActions(actioners[..|actioners| - 1], s) + ActionCount(actioners[|actioners| - 1], s)
  }

  /** `probe` gives as many pairs as the actioners offer actions together. */
  lemma {:induction false} AllOffersLength(actioners: seq<Actioner>, s: Subject)
    ensures |AllOffers(actioners, s)| == TotalActions(actioners, s)
  {
    if actioners != [] {
      AllOffersLength(actioners[..|actioners| - 1], s);
    }
  }

  /** Registering one more actioner adds its offers at the end. */
  lemma OffersSnoc(xs: seq<Actioner>, a: Actioner, s: Subject)
    ensures AllOffers(xs + [a], s) == AllOffers(xs, s) + Offers(a, s)
  {
    assert (xs + [a])[..|xs|] == xs;
  }

  lemma AppendStep(xs: seq<Actioner>, ys: seq<Actioner>, s: Subject)
    requires ys != []
    requires AllOffers(xs + ys[..|ys| - 1], s) == AllOffers(xs, s) + AllOffers(ys[..|ys| - 1], s)
    ensures AllOffers(xs + ys, s) == AllOffers(xs, s) + AllOffers(ys, s)
  {
    var init, y := ys[..|ys| - 1], ys[|ys| - 1];
    Seqs.SplitLast(xs, ys);
    OffersSnoc(xs + init, y, s);
    Seqs.AppendAssoc(AllOffers(xs, s), AllOffers(init, s), Offers(y, s));
  }

  /** Probing two lists one after the other is probing them joined. */
  lemma {:induction false} AllOffersAppend(xs: seq<Actioner>, ys: seq<Actioner>, s: Subject)
    ensures AllOffers(xs + ys, s) == AllOffers(xs, s) + AllOffers(ys, s)
    decreases |ys|
  {
    if ys == [] {
      assert xs + ys == xs;
    } else {
      AllOffersAppend(xs, ys[..|ys| - 1], s);
      AppendStep(xs, ys, s);
    }
  }

  /** One more action of `a` is one more of its pairs. */
  lemma OffersPrefixSnoc(a: Actioner, s: Subject, j: nat)
    requires Probe(a, s).Some? && j < |Probe(a, s).value|
    ensures Offers(a, s)[..j + 1] == Offers(a, s)[..j] + [(Probe(a, s).value[j], a)]
  {
    assert Offers(a, s)[..j + 1] == Offers(a, s)[..j] + [Offers(a, s)[j]];
  }

  /** Every pair `probe` gives is an action its actioner offers, from a registered actioner. */
  lemma {:induction false} AllOffersFrom(actioners: seq<Actioner>, s: Subject, i: int)
    requires 0 <= i < |AllOffers(actioners, s)|
    ensures var (action, a) := AllOffers(actioners, s)[i];
            a in actioners && Probe(a, s).Some? && action in Probe(a, s).value
  {
    var init := actioners[..|actioners| - 1];
    var last := actioners[|actioners| - 1];
    if i < |AllOffers(init, s)| {
      AllOffersFrom(init, s, i);
      assert AllOffers(actioners, s)[i] == AllOffers(init, s)[i];
    } else {
      var k := i - |AllOffers(init, s)|;
      assert AllOffers(actioners, s)[i] == Offers(last, s)[k];
    }
  }

  /** An actioner that offers nothing (None or an empty list) adds no pair. */
  lemma SilentAddsNothing(actioners: seq<Actioner>, a: Actioner, s: Subject)
    requires Probe(a, s).None? || Probe(a, s).value == []
    ensures AllOffers(actioners + [a], s) == AllOffers(actioners, s)
  {
    assert (actioners + [a])[..|actioners|] == actioners;
  }

  /** Whether an actioner passes `get_actioners`' criteria. */
  predicate Matches(a: Actioner, isInstance: Option<Actioner -> bool>, name: Option<string>) {
    (isInstance.None? || isInstance.value(a)) && (name.None? || Name(a) == name)
  }

  /** `a` alone when it passes both criteria, nothing otherwise. */
  function Selected(a: Actioner, isInstance: Option<Actioner -> bool>, name: Option<string>): seq<Actioner> {
    if Matches(a, isInstance, name) then [a] else []
  }

  /** What `get_actioners` gives: the actioners passing both criteria, in order. */
  function Matching(actioners: seq<Actioner>, isInstance: Option<Actioner -> bool>, name: Option<string>): seq<Actioner> {
    if actioners == [] then []
    else Matching(actioners[..|actioners| - 1], isInstance, name) + Selected(actioners[|actioners| - 1], isInstance, name)
  }

  /** The matching actioners are exactly the registered ones passing both criteria. */
  lemma {:induction false} MatchingMembers(actioners: seq<Actioner>, isInstance: Option<Actioner -> bool>, name: Option<string>)
    ensures forall a :: a in Matching(actioners, isInstance, name) <==> a in actioners && Matches(a, isInstance, name)
  {
    if actioners != [] {
      var init := actioners[..|actioners| - 1];
      MatchingMembers(init, isInstance, name);
      assert actioners == init + [actioners[|actioners| - 1]];
    }
  }

  /** One more actioner is one more match exactly when it passes the criteria. */
  lemma MatchingSnoc(xs: seq<Actioner>, a: Actioner, isInstance: Option<Actioner -> bool>, name: Option<string>)
    ensures Matching(xs + [a], isInstance, name) == Matching(xs, isInstance, name) + Selected(a, isInstance, name)
  {
    assert (xs + [a])[..|xs|] == xs;
  }

  /** With no criterion every actioner is given back, in order. */
  lemma {:induction false} MatchingAll(actioners: seq<Actioner>)
    ensures Matching(actioners, None, None) == actioners
  {
    if actioners != [] {
      MatchingAll(actioners[..|actioners| - 1]);
      assert actioners == actioners[..|actioners| - 1] + [actioners[|actioners| - 1]];
    }
  }

  /** The matches among four actioners, one by one. */
  lemma MatchingOfFour(b: seq<Actioner>, n: Option<string>)
    requires |b| == 4
    ensures Matching(b, None, n) ==
            Selected(b[0], None, n) + Selected(b[1], None, n) + Selected(b[2], None, n) + Selected(b[3], None, n)
  {
    assert b[..1][..0] == [] && b[..1][0] == b[0];
    assert Matching(b[..1], None, n) == Selected(b[0], None, n);
    assert b[..2][..1] == b[..1] && b[..2][1] == b[1];
    assert Matching(b[..2], None, n) == Matching(b[..1], None, n) + Selected(b[1], None, n);
    assert b[..3][..2] == b[..2] && b[..3][2] == b[2];
    assert Matching(b[..3], None, n) == Matching(b[..2], None, n) + Selected(b[2], None, n);
    assert b[..3] == b[..|b| - 1];
  }

  /** Among the built-ins, each name finds its own actioner alone. */
  lemma BuiltinByName(a: Actioner)
    requires a in Builtins()
    ensures Matching(Builtins(), None, Name(a)) == [a]
  {
    BuiltinNamesDiffer();
    var n := Name(a);
    MatchingOfFour(Builtins(), n);
    var m := [Matches(Copy, None, n), Matches(Text, None, n), Matches(DataRecord, None, n), Matches(Test(false, []), None, n)];
    if a == Copy {
      assert m == [true, false, false, false];
    } else if a == Text {
      assert m == [false, true, false, false];
    } else if a == DataRecord {
      assert m == [false, false, true, false];
    } else {
      assert m == [false, false, false, true];
    }
  }

  /** With the built-ins loaded, a data record is offered copying its id, then deleting it. */
  lemma BuiltinsOnRecord(r: Record)
    ensures AllOffers(Builtins(), Rec(r)) == [(COPY_OBJECT_ID, Copy), (DELETE, DataRecord)]
  {
    var s := Rec(r);
    var b := Builtins();
    assert Offers(Copy, s) == [(COPY_OBJECT_ID, Copy)];
    assert Offers(Text, s) == [];
    assert Offers(DataRecord, s) == [(DELETE, DataRecord)];
    assert Offers(Test(false, []), s) == [];
    assert [Copy][..0] == [];
    assert AllOffers([Copy], s) == [(COPY_OBJECT_ID, Copy)];
    assert [Copy, Text][..1] == [Copy];
    assert AllOffers([Copy, Text], s) == [(COPY_OBJECT_ID, Copy)];
    assert [Copy, Text, DataRecord][..2] == [Copy, Text];
    assert AllOffers([Copy, Text, DataRecord], s) == [(COPY_OBJECT_ID, Copy), (DELETE, DataRecord)];
    assert b[..3] == [Copy, Text, DataRecord];
  }

  class ActionManager {
    var actioners: seq<Actioner>

    /** A new manager has no actioner. */
    constructor()
      ensures actioners == []
    {
      actioners := [];
    }

    /** `register(a)`: `a` goes last. */
    method Register(a: Actioner)
      modifies this
      ensures actioners == old(actioners) + [a]
    {
      actioners := actioners + [a];
    }

    /**
     * `load_plugins()`: the actioners discovered in the plug-in namespace
     * go last, in discovery order.
     */
    method LoadPlugins(discovered: seq<Actioner>)
      modifies this
      ensures actioners == old(actioners) + discovered
    {
      actioners := actioners + discovered;
    }

    /** `probe(obj, context)`: each actioner's actions in turn, paired with it. */
    method Probe(s: Subject) returns (pairs: seq<(string, Actioner)>)
      ensures pairs == AllOffers(actioners, s)
      ensures |pairs| == TotalActions(actioners, s)
    {
      pairs := [];
      for k := 0 to |actioners|
        invariant pairs == AllOffers(actioners[..k], s)
      {
        var a := actioners[k];
        var possible := Actioners.Probe(a, s);
        assert actioners[..k + 1] == actioners[..k] + [actioners[k]];
        OffersSnoc(actioners[..k], a, s);
        ghost var before := pairs;
        if possible.Some? && possible.value != [] {
          for j := 0 to |possible.value|
            invariant pairs == before + Offers(a, s)[..j]
          {
            OffersPrefixSnoc(a, s, j);
            Seqs.AppendAssoc(before, Offers(a, s)[..j], [(possible.value[j], a)]);
            pairs := pairs + [(possible.value[j], a)];
          }
          assert Offers(a, s)[..|possible.value|] == Offers(a, s);
        } else {
          assert before + Offers(a, s) == before;
        }
      }
      assert actioners[..|actioners|] == actioners;
      AllOffersLength(actioners, s);
    }

    /** `get_actioners(type, name)`: the registered actioners passing both criteria, in order. */
    method GetActioners(isInstance: Option<Actioner -> bool>, name: Option<string>) returns (r: seq<Actioner>)
      ensures r == Matching(actioners, isInstance, name)
    {
      r := [];
      for k := 0 to |actioners|
        invariant r == Matching(actioners[..k], isInstance, name)
      {
        var a := actioners[k];
        assert actioners[..k + 1] == actioners[..k] + [actioners[k]];
        MatchingSnoc(actioners[..k], a, isInstance, name);
        if isInstance.Some? && !isInstance.value(a) {
          continue;
        }
        if name.Some? && Name(a) != name {
          continue;
        }
        r := r + [a];
      }
      assert actioners[..|actioners|] == actioners;
    }
  }
}
