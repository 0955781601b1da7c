/** Counting the clients of a lock by what they are doing. */
module Census {

  type Client = nat

  function Those<M>(ms: map<Client, M>, p: M -> bool): set<Client> {
    set c | c in ms && p(ms[c])
  }

  function Count<M>(ms: map<Client, M>, p: M -> bool): nat { |Those(ms, p)| }

  function One(b: bool): int { if b then 1 else 0 }

  lemma CountUpdate<M>(ms: map<Client, M>, c: Client, m: M, p: M -> bool)
    requires c in ms
    ensures Count(ms[c := m], p) == Count(ms, p) - One(p(ms[c])) + One(p(m))
  {
    var rest := Those(ms, p) - {c};
    assert Those(ms, p) == if p(ms[c]) then rest + {c} else rest;
    assert Those(ms[c := m], p) == if p(m) then rest + {c} else rest;
  }

  lemma CountMember<M>(ms: map<Client, M>, c: Client, p: M -> bool)
    requires c in ms && p(ms[c])
    ensures Count(ms, p) >= 1
  {
    assert c in Those(ms, p);
  }

  lemma CountPair<M>(ms: map<Client, M>, c: Client, d: Client, p: M -> bool)
    requires c in ms && d in ms && c != d && p(ms[c]) && p(ms[d])
    ensures Count(ms, p) >= 2
  {
    var pair := {c, d};
    assert pair <= Those(ms, p);
    CardSubset(pair, Those(ms, p));
  }

  lemma CardSubset(a: set<Client>, b: set<Client>)
    requires a <= b
    ensures |a| <= |b|
  {
    assert b == a + (b - a);
  }

  lemma CountBound<M>(ms: map<Client, M>, p: M -> bool)
    ensures Count(ms, p) <= |ms|
  {
    assert Those(ms, p) <= ms.Keys;
    CardSubset(Those(ms, p), ms.Keys);
  }

  lemma CountNone<M>(ms: map<Client, M>, p: M -> bool)
    ensures Count(ms, p) == 0 <==> forall c :: c in ms ==> !p(ms[c])
  {
    if forall c :: c in ms ==> !p(ms[c]) {
      assert Those(ms, p) == {};
    }
    forall c | c in ms && p(ms[c])
      ensures Count(ms, p) != 0
    {
      CountMember(ms, c, p);
    }
  }

  /** One client counted by p, if the count says there is one. */
  lemma CountWitness<M>(ms: map<Client, M>, p: M -> bool) returns (c: Client)
    requires Count(ms, p) > 0
    ensures c in ms && p(ms[c])
  {
    c :| c in Those(ms, p);
  }
}
