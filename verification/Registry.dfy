/**
 The key-space registry: which numeric id a key-space name has, across reopens with any
 declared shape and destroys of retained key spaces.
*/
module Registry {
  import opened Bytes

  /** One registry slot; its id is its index.  `layout` stands for the on-disk layout settings. */
  datatype Ks = Ks(name: string, layout: nat, destroyed: bool)

  const MAX_KEY_SPACES: nat := 255

  type Names = map<string, nat>

  /** The shape builder rejects a name declared twice. */
  predicate Distinct(declared: seq<Ks>) {
    && (forall i, j | 0 <= i < j < |declared| :: declared[i].name != declared[j].name)
    && (forall i | 0 <= i < |declared| :: !declared[i].destroyed)
  }

  predicate LiveAt(reg: seq<Ks>, i: nat, name: string) {
    i < |reg| && reg[i].name == name && !reg[i].destroyed
  }

  /** At most one live slot per name. */
  predicate OneLive(reg: seq<Ks>) {
    forall i: nat, j: nat | i < j < |reg| && reg[i].name == reg[j].name :: reg[i].destroyed || reg[j].destroyed
  }

  /** The declared key spaces without a live slot, in declaration order. */
  function NewOnes(reg: seq<Ks>, declared: seq<Ks>): seq<Ks> {
    if declared == [] then []
    else
      var rest := NewOnes(reg, declared[..|declared| - 1]);
      var d := declared[|declared| - 1];
      if HasLiveBelow(reg, |reg|, d.name) then rest else rest + [d]
  }

  predicate HasLiveBelow(reg: seq<Ks>, n: nat, name: string) {
    exists i | 0 <= i < n && i < |reg| :: reg[i].name == name && !reg[i].destroyed
  }

  /** What the code asserts before it accepts a declared shape: matched layouts agree and ids do not run out. */
  predicate Acceptable(reg: seq<Ks>, declared: seq<Ks>) {
    && LayoutsMatch(reg, declared, |reg|)
    && |reg| + |NewOnes(reg, declared)| <= MAX_KEY_SPACES
  }

  datatype Opened = Opened(registry: seq<Ks>, exposed: Names, changed: bool)

  /** `take_declared`: the declared key space of this name, if it has not been taken yet. */
  method TakeDeclared(remaining: seq<Option<Ks>>, name: string) returns (at: Option<nat>)
    ensures at.Some? ==> at.value < |remaining| && remaining[at.value].Some? && remaining[at.value].value.name == name
    ensures at.None? ==> forall j | 0 <= j < |remaining| && remaining[j].Some? :: remaining[j].value.name != name
  {
    for j := 0 to |remaining|
      invariant forall m | 0 <= m < j && remaining[m].Some? :: remaining[m].value.name != name
    {
      if remaining[j].Some? && remaining[j].value.name == name {
        return Some(j);
      }
    }
    at := None;
  }

  /** `remaining` holds the declared key spaces not matched by the first `n` slots. */
  predicate Untaken(reg: seq<Ks>, declared: seq<Ks>, remaining: seq<Option<Ks>>, n: nat) {
    && |remaining| == |declared|
    && forall j | 0 <= j < |declared| ::
         remaining[j] == if HasLiveBelow(reg, n, declared[j].name) then None else Some(declared[j])
  }

  /** The names exposed so far: declared ones with a live slot below `n`. */
  predicate Exposed(reg: seq<Ks>, declared: seq<Ks>, exposed: Names, n: nat) {
    && (forall name | name in exposed ::
          exposed[name] < n && LiveAt(reg, exposed[name], name) && Declares(declared, name))
    && (forall j | 0 <= j < |declared| && HasLiveBelow(reg, n, declared[j].name) :: declared[j].name in exposed)
  }

  predicate Declares(declared: seq<Ks>, name: string) {
    exists j | 0 <= j < |declared| :: declared[j].name == name
  }

  lemma BelowStep(reg: seq<Ks>, n: nat, name: string)
    requires n < |reg|
    ensures HasLiveBelow(reg, n + 1, name) <==> HasLiveBelow(reg, n, name) || (reg[n].name == name && !reg[n].destroyed)
  {
    if reg[n].name == name && !reg[n].destroyed {
      assert 0 <= n < n + 1 && n < |reg|;
    }
  }

  /** A slot no declared key space matches changes nothing. */
  lemma PlainSlot(reg: seq<Ks>, declared: seq<Ks>, exposed: Names, remaining: seq<Option<Ks>>, n: nat)
    requires n < |reg| && Exposed(reg, declared, exposed, n) && Untaken(reg, declared, remaining, n)
    requires reg[n].destroyed || forall j | 0 <= j < |declared| :: declared[j].name != reg[n].name
    ensures Exposed(reg, declared, exposed, n + 1) && Untaken(reg, declared, remaining, n + 1)
  {
    forall j | 0 <= j < |declared|
      ensures HasLiveBelow(reg, n + 1, declared[j].name) <==> HasLiveBelow(reg, n, declared[j].name)
    {
      BelowStep(reg, n, declared[j].name);
    }
  }

  /** With one live slot per name, a live slot finds its declared key space untaken. */
  lemma NotTakenBefore(reg: seq<Ks>, declared: seq<Ks>, remaining: seq<Option<Ks>>, n: nat, j: nat)
    requires n < |reg| && OneLive(reg) && !reg[n].destroyed && Untaken(reg, declared, remaining, n)
    requires j < |declared| && declared[j].name == reg[n].name
    ensures remaining[j] == Some(declared[j])
  {
  }

  lemma MatchedSlot(reg: seq<Ks>, declared: seq<Ks>, exposed: Names, remaining: seq<Option<Ks>>, n: nat, j: nat)
    requires n < |reg| && !reg[n].destroyed && Distinct(declared)
    requires Exposed(reg, declared, exposed, n) && Untaken(reg, declared, remaining, n)
    requires j < |declared| && declared[j].name == reg[n].name
    ensures Exposed(reg, declared, exposed[reg[n].name := n], n + 1)
    ensures Untaken(reg, declared, remaining[j := None], n + 1)
  {
    forall i | 0 <= i < |declared|
      ensures HasLiveBelow(reg, n + 1, declared[i].name) <==> HasLiveBelow(reg, n, declared[i].name) || i == j
    {
      BelowStep(reg, n, declared[i].name);
    }
    assert Declares(declared, reg[n].name);
  }

  predicate LayoutsMatch(reg: seq<Ks>, declared: seq<Ks>, n: nat) {
    forall i, j | 0 <= i < n && i < |reg| && 0 <= j < |declared| && !reg[i].destroyed
                  && reg[i].name == declared[j].name ::
      reg[i].layout == declared[j].layout
  }

  /** The first pass of `reorder_to_canonical`: registry order, declared key spaces taken by name. */
  method MatchRegistry(reg: seq<Ks>, declared: seq<Ks>)
    returns (ok: bool, out: seq<Ks>, exposed: Names, remaining: seq<Option<Ks>>)
    requires Distinct(declared) && OneLive(reg) && |reg| <= MAX_KEY_SPACES
    ensures ok <==> LayoutsMatch(reg, declared, |reg|)
    ensures ok ==> out == reg && Exposed(reg, declared, exposed, |reg|) && Untaken(reg, declared, remaining, |reg|)
  {
    out, exposed := [], map[];
    remaining := seq(|declared|, j requires 0 <= j < |declared| => Some(declared[j]));
    for n := 0 to |reg|
      invariant out == reg[..n]
      invariant Exposed(reg, declared, exposed, n) && Untaken(reg, declared, remaining, n)
      invariant LayoutsMatch(reg, declared, n)
    {
      var id := |out|;
      if reg[n].destroyed {
        PlainSlot(reg, declared, exposed, remaining, n);
        out := out + [reg[n]];
        continue;
      }
      var at := TakeDeclared(remaining, reg[n].name);
      if at.Some? {
        var d := remaining[at.value].value;
        if d.layout != reg[n].layout {
          return false, out, exposed, remaining;
        }
        MatchedSlot(reg, declared, exposed, remaining, n, at.value);
        exposed, out, remaining := exposed[d.name := id], out + [d], remaining[at.value := None];
      } else {
        forall j | 0 <= j < |declared| ensures declared[j].name != reg[n].name {
          if declared[j].name == reg[n].name {
            NotTakenBefore(reg, declared, remaining, n, j);
          }
        }
        PlainSlot(reg, declared, exposed, remaining, n);
        out := out + [reg[n]];
      }
    }
    ok := true;
  }

  /** The declared key spaces still untaken, in order. */
  function Left(remaining: seq<Option<Ks>>): seq<Ks> {
    if remaining == [] then []
    else
      var rest := Left(remaining[..|remaining| - 1]);
      var d := remaining[|remaining| - 1];
      if d.Some? then rest + [d.value] else rest
  }

  lemma {:induction false} LeftIsNew(reg: seq<Ks>, declared: seq<Ks>, remaining: seq<Option<Ks>>)
    requires Untaken(reg, declared, remaining, |reg|)
    ensures Left(remaining) == NewOnes(reg, declared)
  {
    if declared != [] {
      var n := |declared| - 1;
      assert Untaken(reg, declared[..n], remaining[..n], |reg|) by {
        forall j | 0 <= j < n
          ensures remaining[..n][j]
               == if HasLiveBelow(reg, |reg|, declared[..n][j].name) then None else Some(declared[..n][j])
        {
        }
      }
      LeftIsNew(reg, declared[..n], remaining[..n]);
    }
  }

  /** Every declared name is exposed under its live slot, and no other name. */
  predicate ExposesExactly(out: seq<Ks>, declared: seq<Ks>, exposed: Names) {
    && (forall name | name in exposed :: LiveAt(out, exposed[name], name) && Declares(declared, name))
    && (forall j | 0 <= j < |declared| :: declared[j].name in exposed)
  }

  /** `out` is `reg` followed by the declared key spaces it lacked. */
  predicate Extends(reg: seq<Ks>, declared: seq<Ks>, out: seq<Ks>) {
    out == reg + NewOnes(reg, declared)
  }

  lemma {:induction false} NewOnesAre(reg: seq<Ks>, declared: seq<Ks>)
    ensures forall d | d in NewOnes(reg, declared) :: d in declared && !HasLiveBelow(reg, |reg|, d.name)
    ensures forall d | d in declared && !HasLiveBelow(reg, |reg|, d.name) :: d in NewOnes(reg, declared)
  {
    if declared != [] {
      var n := |declared| - 1;
      assert declared == declared[..n] + [declared[n]];
      NewOnesAre(reg, declared[..n]);
    }
  }

  lemma {:induction false} NewOnesDistinct(reg: seq<Ks>, declared: seq<Ks>)
    requires Distinct(declared)
    ensures Distinct(NewOnes(reg, declared))
  {
    if declared != [] {
      var n := |declared| - 1;
      assert Distinct(declared[..n]);
      NewOnesDistinct(reg, declared[..n]);
      NewOnesAre(reg, declared[..n]);
      var rest := NewOnes(reg, declared[..n]);
      forall i | 0 <= i < |rest| ensures rest[i].name != declared[n].name {
        NameApart(declared, n, rest[i]);
      }
      if !HasLiveBelow(reg, |reg|, declared[n].name) {
        DistinctSnoc(rest, declared[n]);
      }
    }
  }

  lemma NameApart(declared: seq<Ks>, n: nat, d: Ks)
    requires Distinct(declared) && n < |declared| && d in declared[..n]
    ensures d.name != declared[n].name
  {
    var j :| 0 <= j < n && declared[..n][j] == d;
  }

  lemma DistinctSnoc(rest: seq<Ks>, d: Ks)
    requires Distinct(rest) && !d.destroyed && forall i | 0 <= i < |rest| :: rest[i].name != d.name
    ensures Distinct(rest + [d])
  {
  }

  /** Appending key spaces that have no live slot keeps one live slot per name. */
  lemma ExtendKeepsOneLive(reg: seq<Ks>, declared: seq<Ks>)
    requires Distinct(declared) && OneLive(reg)
    ensures OneLive(reg + NewOnes(reg, declared))
  {
    NewOnesAre(reg, declared);
    NewOnesDistinct(reg, declared);
    var new_ := NewOnes(reg, declared);
    var out := reg + new_;
    forall i: nat, j: nat | i < j < |out| && out[i].name == out[j].name ensures out[i].destroyed || out[j].destroyed {
      if i < |reg| <= j {
        assert new_[j - |reg|] in new_;
      }
    }
  }

  /** The second pass: what is left is appended under fresh ids, until ids run out. */
  method AppendNew(reg: seq<Ks>, before: Names, remaining: seq<Option<Ks>>)
    returns (ok: bool, out: seq<Ks>, exposed: Names)
    requires |reg| <= MAX_KEY_SPACES
    ensures ok <==> |reg| + |Left(remaining)| <= MAX_KEY_SPACES
    ensures ok ==> out == reg + Left(remaining)
    ensures ok ==> forall name | name in exposed ::
      || (name in before && exposed[name] == before[name])
      || (|reg| <= exposed[name] < |out| && out[exposed[name]].name == name)
    ensures ok ==> (forall name | name in before :: name in exposed)
    ensures ok ==> (forall j | 0 <= j < |remaining| && remaining[j].Some? :: remaining[j].value.name in exposed)
  {
    out, exposed := reg, before;
    for n := 0 to |remaining|
      invariant out == reg + Left(remaining[..n]) && |out| <= MAX_KEY_SPACES
      invariant forall name | name in exposed ::
        || (name in before && exposed[name] == before[name])
        || (|reg| <= exposed[name] < |out| && out[exposed[name]].name == name)
      invariant forall name | name in before :: name in exposed
      invariant forall j | 0 <= j < n && remaining[j].Some? :: remaining[j].value.name in exposed
    {
      assert remaining[..n + 1][..n] == remaining[..n];
      if remaining[n].Some? {
        var d := remaining[n].value;
        if |out| >= MAX_KEY_SPACES {
          LeftGrows(remaining, n + 1);
          return false, out, exposed;
        }
        exposed, out := exposed[d.name := |out|], out + [d];
      }
    }
    assert remaining[..|remaining|] == remaining;
    ok := true;
  }

  lemma {:induction false} LeftGrows(remaining: seq<Option<Ks>>, n: nat)
    requires n <= |remaining|
    ensures |Left(remaining[..n])| <= |Left(remaining)|
    decreases |remaining| - n
  {
    if n < |remaining| {
      assert remaining[..n + 1][..n] == remaining[..n];
      LeftGrows(remaining, n + 1);
    } else {
      assert remaining[..n] == remaining;
    }
  }

  /** `reorder_to_canonical`: accepted exactly when layouts match and ids suffice; `None` stands for the panic. */
  method Reconcile(reg: seq<Ks>, declared: seq<Ks>) returns (r: Option<Opened>)
    requires Distinct(declared) && OneLive(reg) && |reg| <= MAX_KEY_SPACES
    ensures r.Some? <==> Acceptable(reg, declared)
    ensures r.Some? ==>
      && Extends(reg, declared, r.value.registry) && OneLive(r.value.registry) && |r.value.registry| <= MAX_KEY_SPACES
      && ExposesExactly(r.value.registry, declared, r.value.exposed)
      && (r.value.changed <==> r.value.registry != reg)
  {
    var ok, out, exposed, remaining := MatchRegistry(reg, declared);
    if !ok {
      return None;
    }
    LeftIsNew(reg, declared, remaining);
    var fits, full, names := AppendNew(out, exposed, remaining);
    if !fits {
      return None;
    }
    ExtendKeepsOneLive(reg, declared);
    ExposedAll(reg, declared, full, exposed, names, remaining);
    r := Some(Opened(full, names, |full| > |reg|));
  }

  lemma ExposedAll(reg: seq<Ks>, declared: seq<Ks>, out: seq<Ks>, before: Names, exposed: Names,
                   remaining: seq<Option<Ks>>)
    requires Distinct(declared) && out == reg + NewOnes(reg, declared)
    requires Exposed(reg, declared, before, |reg|) && Untaken(reg, declared, remaining, |reg|)
    requires forall name | name in exposed ::
      || (name in before && exposed[name] == before[name])
      || (|reg| <= exposed[name] < |out| && out[exposed[name]].name == name)
    requires forall name | name in before :: name in exposed
    requires forall j | 0 <= j < |remaining| && remaining[j].Some? :: remaining[j].value.name in exposed
    ensures ExposesExactly(out, declared, exposed)
  {
    NewOnesAre(reg, declared);
    NewOnesDistinct(reg, declared);
    forall name | name in exposed ensures LiveAt(out, exposed[name], name) && Declares(declared, name) {
      if !(name in before && exposed[name] == before[name]) {
        var d := out[exposed[name]];
        assert d == NewOnes(reg, declared)[exposed[name] - |reg|];
        assert d in declared;
        var j :| 0 <= j < |declared| && declared[j] == d;
      }
    }
    forall j | 0 <= j < |declared| ensures declared[j].name in exposed {
      assert remaining[j] == if HasLiveBelow(reg, |reg|, declared[j].name) then None else Some(declared[j]);
    }
  }

  // ---- runs of opens and destroys ----

  /** The persisted registry and, while the database is open, the names it exposes. */
  datatype Store = Store(registry: seq<Ks>, exposed: Names)

  datatype Event = Open(declared: seq<Ks>) | Destroy(id: nat)

  /**
   A destroy names a live key space that is not exposed; it finds that slot by name, so the
   slot stands for the name here.
  */
  ghost predicate Can(s: Store, e: Event) {
    match e
    case Open(declared) => Distinct(declared) && Acceptable(s.registry, declared)
    case Destroy(id) => id < |s.registry| && !s.registry[id].destroyed && s.registry[id].name !in s.exposed
  }

  ghost predicate Step(s: Store, e: Event, t: Store) {
    && Can(s, e)
    && match e
       case Open(declared) =>
         Extends(s.registry, declared, t.registry) && ExposesExactly(t.registry, declared, t.exposed)
       case Destroy(id) => t == s.(registry := s.registry[id := s.registry[id].(destroyed := true)])
  }

  ghost predicate Run(s: Store, es: seq<Event>, t: Store)
    decreases |es|
  {
    if es == [] then t == s else exists m :: Step(s, es[0], m) && Run(m, es[1..], t)
  }

  predicate Valid(s: Store) {
    && OneLive(s.registry) && |s.registry| <= MAX_KEY_SPACES
    && forall name | name in s.exposed :: LiveAt(s.registry, s.exposed[name], name)
  }

  /** Slots keep their names and layouts, and a destroyed slot stays destroyed. */
  predicate Grows(a: seq<Ks>, b: seq<Ks>) {
    && |a| <= |b|
    && forall i | 0 <= i < |a| ::
         b[i].name == a[i].name && b[i].layout == a[i].layout && (a[i].destroyed ==> b[i].destroyed)
  }

  lemma StepOk(s: Store, e: Event, t: Store)
    requires Valid(s) && Step(s, e, t)
    ensures Valid(t) && Grows(s.registry, t.registry)
  {
    if e.Open? {
      ExtendKeepsOneLive(s.registry, e.declared);
    } else {
      forall name | name in t.exposed ensures LiveAt(t.registry, t.exposed[name], name) {
        assert LiveAt(s.registry, s.exposed[name], name);
      }
    }
  }

  lemma {:induction false} RunOk(s: Store, es: seq<Event>, t: Store)
    requires Valid(s) && Run(s, es, t)
    ensures Valid(t) && Grows(s.registry, t.registry)
    decreases |es|
  {
    if es != [] {
      var m :| Step(s, es[0], m) && Run(m, es[1..], t);
      StepOk(s, es[0], m);
      RunOk(m, es[1..], t);
    }
  }

  /** A live name keeps its id for as long as it lives, whatever shapes the database is opened with. */
  lemma IdIsStable(s: Store, es: seq<Event>, t: Store, i: nat, j: nat, name: string)
    requires Valid(s) && Run(s, es, t)
    requires LiveAt(s.registry, i, name) && i < |t.registry| && !t.registry[i].destroyed
    requires LiveAt(t.registry, j, name)
    ensures i == j
  {
    RunOk(s, es, t);
    assert t.registry[i].name == name;
  }

  /** A name declared again after its key space was destroyed gets an id never used before. */
  lemma RedeclaredGetsFreshId(s: Store, id: nat, m: Store, es: seq<Event>, t: Store, j: nat)
    requires Valid(s) && Step(s, Destroy(id), m) && Run(m, es, t)
    requires LiveAt(t.registry, j, s.registry[id].name)
    ensures |s.registry| <= j
  {
    StepOk(s, Destroy(id), m);
    RunOk(m, es, t);
  }

  /** Refused stands for the panics on a declared or an unknown name. */
  datatype Tombstoned = Destroyed(id: nat) | AlreadyDestroyed | Refused

  method TombstoneKeySpace(s: Store, name: string) returns (r: Tombstoned, t: Store)
    requires Valid(s)
    ensures r.Destroyed? ==> Step(s, Destroy(r.id), t) && s.registry[r.id].name == name
    ensures r.Destroyed? <==> name !in s.exposed && HasLiveBelow(s.registry, |s.registry|, name)
    ensures r.AlreadyDestroyed? <==>
      && name !in s.exposed && !HasLiveBelow(s.registry, |s.registry|, name)
      && exists i | 0 <= i < |s.registry| :: s.registry[i].name == name
    ensures !r.Destroyed? ==> t == s
  {
    t := s;
    if name in s.exposed {
      return Refused, s;
    }
    var seen := false;
    for i := 0 to |s.registry|
      invariant !HasLiveBelow(s.registry, i, name)
      invariant seen <==> exists m | 0 <= m < i :: s.registry[m].name == name
    {
      if s.registry[i].name == name {
        if !s.registry[i].destroyed {
          t := s.(registry := s.registry[i := s.registry[i].(destroyed := true)]);
          return Destroyed(i), t;
        }
        seen := true;
      }
    }
    r := if seen then AlreadyDestroyed else Refused;
  }
}
