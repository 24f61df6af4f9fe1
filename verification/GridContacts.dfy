/**
  What one physics entity remembers of its contacts over one update of the grid
  (dPhysics/dpEntity.cpp, CheckCollision).
 */
module GridContacts {
  import opened Basics

  // Object ids are signed 64-bit numbers.
  type Id = Int64

  datatype Contacts = Contacts(colliding: set<Id>, added: seq<Id>, removed: seq<Id>)

  // One comparison with another entity, and whether the shapes met.
  datatype Test = Test(id: Id, touching: bool)

  function Check(c: Contacts, t: Test): Contacts {
    if t.touching && t.id !in c.colliding then
      c.(colliding := c.colliding + {t.id}, added := c.added + [t.id])
    else if !t.touching && t.id in c.colliding then
      c.(colliding := c.colliding - {t.id}, removed := c.removed + [t.id])
    else c
  }

  // The last test comes last.
  function CheckAll(c: Contacts, tests: seq<Test>): Contacts
    decreases |tests|
  {
    if tests == [] then c else Check(CheckAll(c, tests[..|tests| - 1]), tests[|tests| - 1])
  }

  // Nothing moves between two tests of the same pair.
  predicate Consistent(tests: seq<Test>) {
    forall i, j :: 0 <= i < |tests| && 0 <= j < |tests| && tests[i].id == tests[j].id
      ==> tests[i].touching == tests[j].touching
  }

  predicate IsTested(tests: seq<Test>, id: Id) {
    Test(id, true) in tests || Test(id, false) in tests
  }

  predicate EndsUp(start: set<Id>, c: Contacts, tests: seq<Test>, id: Id) {
    && (id in c.colliding <==> if IsTested(tests, id) then Test(id, true) in tests else id in start)
    && (id in c.added <==> id in c.colliding && id !in start)
    && (id in c.removed <==> id !in c.colliding && id in start)
  }

  // The tested ids are as last seen, the others as before; each change is reported once and nothing else is.
  ghost predicate Settled(start: set<Id>, c: Contacts, tests: seq<Test>) {
    Distinct(c.added) && Distinct(c.removed) && forall id :: EndsUp(start, c, tests, id)
  }

  lemma ConsistentBefore(tests: seq<Test>)
    requires tests != [] && Consistent(tests)
    ensures var before, t := tests[..|tests| - 1], tests[|tests| - 1];
      && Consistent(before)
      && Test(t.id, !t.touching) !in before
      && (forall u :: u in tests <==> u in before || u == t)
  {
    var n := |tests| - 1;
    var before, t := tests[..n], tests[n];
    forall k | 0 <= k < n ensures before[k] != Test(t.id, !t.touching) {
      assert before[k] == tests[k];
    }
  }

  lemma CheckSettles(start: set<Id>, c: Contacts, before: seq<Test>, t: Test, tests: seq<Test>)
    requires Settled(start, c, before) && Test(t.id, !t.touching) !in before
    requires forall u :: u in tests <==> u in before || u == t
    ensures Settled(start, Check(c, t), tests)
  {
    var d := Check(c, t);
    assert EndsUp(start, c, before, t.id);
    assert d.added != c.added ==> t.id !in c.added;
    assert d.removed != c.removed ==> t.id !in c.removed;
    forall id ensures EndsUp(start, d, tests, id) {
      assert EndsUp(start, c, before, id);
      assert Test(id, true) in tests <==> Test(id, true) in before || (id == t.id && t.touching);
      assert Test(id, false) in tests <==> Test(id, false) in before || (id == t.id && !t.touching);
    }
  }

  // Also when a pair is tested more than once.
  lemma {:induction false} TestsSettle(start: set<Id>, tests: seq<Test>)
    requires Consistent(tests)
    ensures Settled(start, CheckAll(Contacts(start, [], []), tests), tests)
    decreases |tests|
  {
    if tests != [] {
      var before, t := tests[..|tests| - 1], tests[|tests| - 1];
      ConsistentBefore(tests);
      TestsSettle(start, before);
      CheckSettles(start, CheckAll(Contacts(start, [], []), before), before, t, tests);
    }
  }

  // Tests that disagree are reported both ways.
  lemma DisagreeingTests(id: Id)
    ensures CheckAll(Contacts({}, [], []), [Test(id, true), Test(id, false)]) == Contacts({}, [id], [id])
    ensures CheckAll(Contacts({}, [], []), [Test(id, false), Test(id, true)]) == Contacts({id}, [id], [])
  {
    var on, off, none := Test(id, true), Test(id, false), Contacts({}, [], []);
    assert [on, off][..1] == [on] && [off, on][..1] == [off] && [on][..0] == [] && [off][..0] == [];
    assert CheckAll(none, [on]) == Check(none, on) && CheckAll(none, [off]) == Check(none, off) == none;
    assert {id} - {id} == {} && {} + {id} == {id} && [] + [id] == [id];
  }
}
