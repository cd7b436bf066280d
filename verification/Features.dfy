/** The feature-stage checker: the closure of a feature over the workspace, and its rules. */
module Features {
  import opened Wrappers
  import opened Text

  const UMBRELLA := "agent-framework"
  const PREFIX := "experimental-"

  /** A crate and one of its features. */
  type Pair = (string, string)

  /** One manifest: features and what they enable, dependency keys and their packages. */
  datatype Crate = Crate(features: map<string, seq<string>>, deps: map<string, string>, depFeatures: seq<Pair>)

  type Crates = map<string, Crate>

  /** Feature to upstream id and crates, from the documentation's table. */
  type Table = map<string, (string, set<string>)>

  predicate IsExperimental(feature: string) {
    PREFIX <= feature
  }

  // --- what turning on a feature turns on -----------------------------------------

  function TrimEndMarks(s: string): (r: string)
    ensures r <= s
  {
    if s != "" && s[|s| - 1] == '?' then TrimEndMarks(s[..|s| - 1]) else s
  }

  /** What one entry of a feature of crate `c` turns on: a dependency's feature or a local one. */
  function EntryTarget(manifest: Crate, c: string, entry: string): Option<Pair> {
    if "dep:" <= entry then None
    else
      match SplitOnce(entry, {'/'})
      case Some((dep, feature)) =>
        var key := TrimEndMarks(dep);
        Some((if key in manifest.deps then manifest.deps[key] else key, feature))
      case None => Some((c, entry))
  }

  /** A dependency's key as an entry writes it. */
  predicate IsKey(key: string) {
    '/' !in key && (key != "" ==> key[|key| - 1] != '?')
  }

  predicate AreMarks(marks: string) {
    forall m :: m in marks ==> m == '?'
  }

  /** `entry` is a dependency's key, any question marks, a slash and a feature of its package. */
  predicate IsForward(manifest: Crate, entry: string, q: Pair, key: string, marks: string) {
    && entry == key + marks + "/" + q.1 && IsKey(key) && AreMarks(marks)
    && q.0 == if key in manifest.deps then manifest.deps[key] else key
  }

  /** What an entry of crate `c` says by its spelling: a bare name is a feature of `c` itself. */
  ghost predicate Spells(manifest: Crate, c: string, entry: string, q: Pair) {
    && !("dep:" <= entry)
    && (('/' !in entry && q == (c, entry)) || exists key, marks :: IsForward(manifest, entry, q, key, marks))
  }

  /** The pair `p` turns on `q` by one of its entries. */
  ghost predicate Enables(all: Crates, p: Pair, q: Pair) {
    && p.0 in all && p.1 in all[p.0].features
    && exists e :: e in all[p.0].features[p.1] && Spells(all[p.0], p.0, e, q)
  }

  /** The target computed from an entry is the one it spells, and the only one. */
  lemma TargetIsSpelled(manifest: Crate, c: string, entry: string, q: Pair)
    ensures EntryTarget(manifest, c, entry) == Some(q) <==> Spells(manifest, c, entry, q)
  {
    hide SplitOnce, TrimEndMarks;
    if EntryTarget(manifest, c, entry) == Some(q) {
      EntryParts(manifest, c, entry, q);
    }
    if Spells(manifest, c, entry, q) && '/' in entry {
      var key, marks :| IsForward(manifest, entry, q, key, marks);
      assert entry == (key + marks) + ['/'] + q.1;
      SplitOnceAt(key + marks, '/', q.1, {'/'});
      TrimMarks(key, marks);
    }
    if Spells(manifest, c, entry, q) && '/' !in entry {
      ForwardHasSlash(manifest, entry, q);
    }
  }

  /** An entry with a target is a bare name, or falls into a key, marks, a slash and a feature. */
  lemma EntryParts(manifest: Crate, c: string, entry: string, q: Pair)
    requires EntryTarget(manifest, c, entry) == Some(q)
    ensures Spells(manifest, c, entry, q)
  {
    hide TrimEndMarks;
    if SplitOnce(entry, {'/'}).Some? {
      var dep := SplitOnce(entry, {'/'}).value.0;
      MarksTrimmed(dep);
      var key := TrimEndMarks(dep);
      assert entry == dep + "/" + q.1;
      assert dep == key + dep[|key|..];
      assert IsForward(manifest, entry, q, key, dep[|key|..]);
    }
  }

  lemma ForwardHasSlash(manifest: Crate, entry: string, q: Pair)
    ensures (exists key, marks :: IsForward(manifest, entry, q, key, marks)) ==> '/' in entry
  {
    if key, marks :| IsForward(manifest, entry, q, key, marks) {
      assert entry[|key + marks|] == '/';
    }
  }

  lemma {:induction false} MarksTrimmed(dep: string)
    ensures '/' !in dep ==> IsKey(TrimEndMarks(dep))
    ensures AreMarks(dep[|TrimEndMarks(dep)|..])
  {
    if dep != "" && dep[|dep| - 1] == '?' {
      var front := dep[..|dep| - 1];
      MarksTrimmed(front);
      var key := TrimEndMarks(front);
      assert dep[|key|..] == front[|key|..] + ['?'];
    }
  }

  lemma {:induction false} TrimMarks(key: string, marks: string)
    requires IsKey(key) && AreMarks(marks)
    ensures TrimEndMarks(key + marks) == key
    decreases |marks|
  {
    if marks == "" {
      assert key + marks == key;
    } else {
      var front := marks[..|marks| - 1];
      assert marks[|marks| - 1] in marks && forall m :: m in front ==> m in marks;
      assert (key + marks)[..|key + marks| - 1] == key + front;
      TrimMarks(key, front);
    }
  }

  ghost predicate IsChain(all: Crates, chain: seq<Pair>) {
    chain != [] && forall i :: 0 <= i < |chain| - 1 ==> Enables(all, chain[i], chain[i + 1])
  }

  ghost predicate ChainFrom(all: Crates, chain: seq<Pair>, p: Pair, q: Pair) {
    IsChain(all, chain) && chain[0] == p && chain[|chain| - 1] == q
  }

  /** Some chain of aliases and dependency entries leads from `p` to `q`. */
  ghost predicate Reaches(all: Crates, p: Pair, q: Pair) {
    exists chain :: ChainFrom(all, chain, p, q)
  }

  /** Every pair some entry of the workspace turns on, and the start. */
  ghost function Universe(all: Crates, start: Pair): set<Pair> {
    {start} + set c, f, e | c in all && f in all[c].features && e in all[c].features[f]
                            && EntryTarget(all[c], c, e).Some? :: EntryTarget(all[c], c, e).value
  }

  lemma ReachesItself(all: Crates, p: Pair)
    ensures Reaches(all, p, p)
  {
    assert ChainFrom(all, [p], p, p);
  }

  lemma ReachesStep(all: Crates, p: Pair, q: Pair, r: Pair)
    requires Reaches(all, p, q) && Enables(all, q, r)
    ensures Reaches(all, p, r)
  {
    var chain :| ChainFrom(all, chain, p, q);
    assert ChainFrom(all, chain + [r], p, r);
  }

  lemma ReachesTrans(all: Crates, p: Pair, q: Pair, r: Pair)
    requires Reaches(all, p, q) && Reaches(all, q, r)
    ensures Reaches(all, p, r)
  {
    var a :| ChainFrom(all, a, p, q);
    var b :| ChainFrom(all, b, q, r);
    var chain := a + b[1..];
    forall i | 0 <= i < |chain| - 1
      ensures Enables(all, chain[i], chain[i + 1])
    {
      if i < |a| - 1 {
        assert Enables(all, a[i], a[i + 1]);
      } else {
        assert Enables(all, b[i - |a| + 1], b[i - |a| + 2]);
      }
    }
    assert ChainFrom(all, chain, p, r);
  }

  /** A set closed under `Enables` holds everything a chain from inside it reaches. */
  lemma {:induction false} ClosedHoldsChain(all: Crates, closed: set<Pair>, chain: seq<Pair>)
    requires forall p, q :: p in closed && Enables(all, p, q) ==> q in closed
    requires IsChain(all, chain) && chain[0] in closed
    ensures chain[|chain| - 1] in closed
    decreases |chain|
  {
    if |chain| > 1 {
      assert Enables(all, chain[0], chain[1]);
      forall i | 0 <= i < |chain[1..]| - 1
        ensures Enables(all, chain[1..][i], chain[1..][i + 1])
      {
        assert Enables(all, chain[i + 1], chain[i + 2]);
      }
      ClosedHoldsChain(all, closed, chain[1..]);
    }
  }

  /** The state of the search: what is seen or waiting is reachable, and nothing reachable is lost. */
  ghost predicate Searching(all: Crates, start: Pair, seen: set<Pair>, stack: seq<Pair>) {
    && (start in seen || start in stack)
    && (forall p :: p in seen ==> Reaches(all, start, p))
    && (forall p :: p in stack ==> Reaches(all, start, p) && p in Universe(all, start))
    && (forall p, q :: p in seen && Enables(all, p, q) ==> q in seen || q in stack)
  }

  /**
   What `feature` of `krate` enables, itself included. It ends on any workspace,
   cyclic or not: each round takes a new pair into `seen` or shortens the stack.
   */
  method Closure(all: Crates, krate: string, feature: string) returns (seen: set<Pair>)
    ensures forall q :: q in seen <==> Reaches(all, (krate, feature), q)
  {
    hide Searching, Reaches, Universe;
    var start := (krate, feature);
    seen := {};
    var stack := [start];
    SearchStarts(all, start);
    while stack != []
      invariant Searching(all, start, seen, stack)
      decreases |Universe(all, start) - seen|, |stack|
    {
      var (c, f) := stack[|stack| - 1];
      ghost var popped := stack;
      stack := stack[..|stack| - 1];
      SearchPops(all, start, seen, popped);
      if (c, f) in seen {
        continue;
      }
      Shrinks(Universe(all, start), seen, (c, f));
      ghost var before := seen;
      seen := seen + {(c, f)};
      stack := PushTargets(all, start, c, f, stack);
      SearchTakes(all, start, before, popped, stack);
    }
    SearchEnds(all, start, seen);
  }

  lemma SearchStarts(all: Crates, start: Pair)
    ensures Searching(all, start, {}, [start])
  {
    ReachesItself(all, start);
  }

  /** A pair already seen is dropped from the stack. */
  lemma SearchPops(all: Crates, start: Pair, seen: set<Pair>, stack: seq<Pair>)
    requires stack != [] && Searching(all, start, seen, stack)
    ensures var p := stack[|stack| - 1];
            && Reaches(all, start, p) && p in Universe(all, start)
            && (p in seen ==> Searching(all, start, seen, stack[..|stack| - 1]))
  {
    hide Reaches, Enables, Universe;
    assert forall q :: q in stack ==> q in stack[..|stack| - 1] || q == stack[|stack| - 1];
  }

  /** A new pair is taken, and everything it turns on waits on the stack. */
  lemma SearchTakes(all: Crates, start: Pair, seen: set<Pair>, popped: seq<Pair>, stack: seq<Pair>)
    requires popped != [] && Searching(all, start, seen, popped)
    requires popped[..|popped| - 1] <= stack
    requires forall q :: q in stack ==> q in popped[..|popped| - 1] || (Reaches(all, start, q) && q in Universe(all, start))
    requires forall q :: Enables(all, popped[|popped| - 1], q) ==> q in stack
    ensures Searching(all, start, seen + {popped[|popped| - 1]}, stack)
  {
    hide Reaches, Enables, Universe;
    assert forall q :: q in popped ==> q in popped[..|popped| - 1] || q == popped[|popped| - 1];
    assert forall q :: q in popped[..|popped| - 1] ==> q in stack;
  }

  lemma SearchEnds(all: Crates, start: Pair, seen: set<Pair>)
    requires Searching(all, start, seen, [])
    ensures forall q :: q in seen <==> Reaches(all, start, q)
  {
    forall q | Reaches(all, start, q)
      ensures q in seen
    {
      var chain :| ChainFrom(all, chain, start, q);
      ClosedHoldsChain(all, seen, chain);
    }
  }

  lemma Shrinks(universe: set<Pair>, seen: set<Pair>, p: Pair)
    requires p in universe && p !in seen
    ensures |universe - (seen + {p})| < |universe - seen|
  {
    assert universe - (seen + {p}) == (universe - seen) - {p};
  }

  /** The inner loop of `Closure`: pushes what the entries of `(c, f)` turn on. */
  method PushTargets(all: Crates, ghost start: Pair, c: string, f: string, before: seq<Pair>) returns (stack: seq<Pair>)
    requires Reaches(all, start, (c, f))
    ensures before <= stack
    ensures forall q :: q in stack ==> q in before || (Reaches(all, start, q) && q in Universe(all, start))
    ensures forall q :: Enables(all, (c, f), q) ==> q in stack
  {
    hide Reaches, EntryTarget, Spells;
    stack := before;
    if c !in all || f !in all[c].features {
      return;
    }
    var manifest := all[c];
    var entries := manifest.features[f];
    for i := 0 to |entries|
      invariant before <= stack
      invariant forall q :: q in stack ==> q in before || (Reaches(all, start, q) && q in Universe(all, start))
      invariant forall k :: 0 <= k < i && EntryTarget(manifest, c, entries[k]).Some? ==>
                  EntryTarget(manifest, c, entries[k]).value in stack
    {
      var target := EntryTarget(manifest, c, entries[i]);
      if target.Some? {
        assert Enables(all, (c, f), target.value) by {
          assert entries[i] in all[c].features[f];
          TargetIsSpelled(manifest, c, entries[i], target.value);
        }
        ReachesStep(all, start, (c, f), target.value);
        assert target.value in Universe(all, start);
        stack := stack + [target.value];
      }
    }
    forall q | Enables(all, (c, f), q)
      ensures q in stack
    {
      var e :| e in entries && Spells(manifest, c, e, q);
      TargetIsSpelled(manifest, c, e, q);
      var k :| 0 <= k < |entries| && entries[k] == e;
    }
  }

  // --- the rules -----------------------------------------------------------------

  datatype Problem =
    | EnablesExperimental(krate: string, root: string, target: Pair)
    | TurnsOnUnconditionally(krate: string, dep: string, feature: string)
    | NotForwarded(krate: string, feature: string, dep: string)
    | NotInTable(feature: string)
    | Misnamed(feature: string, expected: string)
    | WrongCrates(feature: string)
    | NotReexposed(feature: string)
    | NotInExperimental(feature: string)
    | StaleRow(feature: string)
    | DeclaredByUmbrellaOnly(feature: string)

  /** The features a crate's ordinary builds start from. */
  function Roots(krate: string): seq<string> {
    ["default"] + if krate == UMBRELLA then ["full"] else []
  }

  predicate Declares(all: Crates, krate: string, feature: string) {
    krate in all && feature in all[krate].features
  }

  /** The declaring crates by experimental feature, the umbrella apart. */
  function Declared(all: Crates): map<string, set<string>> {
    map f | f in ExperimentalFeatures(all) :: set c | c in all && c != UMBRELLA && f in all[c].features
  }

  function ExperimentalFeatures(all: Crates): set<string> {
    set c, f | c in all && c != UMBRELLA && f in all[c].features && IsExperimental(f) :: f
  }

  /** `feature` under one spelling of the dependency or the other. */
  predicate Forwards(enables: seq<string>, dep: string, feature: string) {
    dep + "/" + feature in enables || dep + "?/" + feature in enables
  }

  function LowerDash(c: char): char {
    if 'A' <= c <= 'Z' then 'a' + (c - 'A') else if c == '_' then '-' else c
  }

  function ExpectedName(id: string): string {
    PREFIX + seq(|id|, i requires 0 <= i < |id| => LowerDash(id[i]))
  }

  /** What the umbrella's `experimental` lists. */
  function UmbrellaAll(all: Crates): seq<string> {
    if Declares(all, UMBRELLA, "experimental") then all[UMBRELLA].features["experimental"] else []
  }

  /** What each rule forbids. */
  ghost predicate Breaks(all: Crates, table: Table, e: Problem) {
    match e
    case EnablesExperimental(krate, root, target) =>
      (root == "default" || (root == "full" && krate == UMBRELLA)) && Declares(all, krate, root)
      && IsExperimental(target.1) && Reaches(all, (krate, root), target)
    case TurnsOnUnconditionally(krate, dep, feature) =>
      krate in all && (dep, feature) in all[krate].depFeatures && IsExperimental(feature)
    case NotForwarded(krate, feature, dep) =>
      Declares(all, krate, feature) && IsExperimental(feature) && dep in all[krate].deps
      && Declares(all, all[krate].deps[dep], feature)
      && dep + "/" + feature !in all[krate].features[feature] && dep + "?/" + feature !in all[krate].features[feature]
    case NotInTable(feature) => feature in Declared(all) && feature !in table
    case Misnamed(feature, expected) =>
      feature in Declared(all) && feature in table && expected == ExpectedName(table[feature].0) != feature
    case WrongCrates(feature) =>
      feature in Declared(all) && feature in table && table[feature].1 != Declared(all)[feature]
    case NotReexposed(feature) => feature in Declared(all) && !Declares(all, UMBRELLA, feature)
    case NotInExperimental(feature) => feature in Declared(all) && feature !in UmbrellaAll(all)
    case StaleRow(feature) => feature in table && feature !in Declared(all)
    case DeclaredByUmbrellaOnly(feature) =>
      Declares(all, UMBRELLA, feature) && IsExperimental(feature) && feature !in Declared(all)
  }

  predicate IsReachRule(e: Problem) {
    e.EnablesExperimental? || e.TurnsOnUnconditionally?
  }

  predicate IsTableRule(e: Problem) {
    !IsReachRule(e) && !e.NotForwarded?
  }

  /** Which crate or feature a problem is reported for. */
  function Subject(e: Problem): string {
    match e
    case EnablesExperimental(krate, _, _) => krate
    case TurnsOnUnconditionally(krate, _, _) => krate
    case NotForwarded(krate, _, _) => krate
    case _ => e.feature
  }

  /** The whole report: what is wrong, and the size of the declared set. */
  method Problems(all: Crates, table: Table) returns (errors: seq<Problem>, count: nat)
    ensures forall e :: e in errors <==> Breaks(all, table, e)
    ensures count == |Declared(all)|
  {
    hide Breaks, Declared;
    var declared := DeclaredFeatures(all);
    errors := [];

    var crates := all.Keys;
    while crates != {}
      invariant crates <= all.Keys
      invariant forall e :: e in errors <==> IsReachRule(e) && Subject(e) in all.Keys - crates && Breaks(all, table, e)
      decreases |crates|
    {
      var krate :| krate in crates;
      var found := ReachProblems(all, table, krate);
      errors := errors + found;
      crates := crates - {krate};
    }
    SubjectsExist(all, table);

    crates := all.Keys;
    while crates != {}
      invariant crates <= all.Keys
      invariant forall e :: e in errors <==>
                  Breaks(all, table, e)
                  && (IsReachRule(e) || (e.NotForwarded? && Subject(e) in all.Keys - crates))
      decreases |crates|
    {
      var krate :| krate in crates;
      var found := ForwardingProblems(all, table, krate);
      errors := errors + found;
      crates := crates - {krate};
    }

    var found := TableProblems(all, table, declared);
    errors := errors + found;
    count := |declared|;
  }

  lemma SubjectsExist(all: Crates, table: Table)
    ensures forall e :: Breaks(all, table, e) && !IsTableRule(e) ==> Subject(e) in all
  {
  }

  predicate Recorded(declared: map<string, set<string>>, f: string, c: string) {
    f in declared && c in declared[f]
  }

  predicate DeclaresIn(all: Crates, crates: set<string>, f: string, c: string) {
    c in crates && c != UMBRELLA && Declares(all, c, f) && IsExperimental(f)
  }

  /** The loop of `Problems` that collects `declared`. */
  method DeclaredFeatures(all: Crates) returns (declared: map<string, set<string>>)
    ensures declared == Declared(all)
  {
    declared := map[];
    var crates := all.Keys;
    while crates != {}
      invariant crates <= all.Keys
      invariant forall f :: f in declared ==> declared[f] != {}
      invariant forall f, c :: Recorded(declared, f, c) <==> DeclaresIn(all, all.Keys - crates, f, c)
      decreases |crates|
    {
      var krate :| krate in crates;
      declared := AddCrate(all, all.Keys - crates, krate, declared);
      crates := crates - {krate};
    }
    DeclaredIs(all, declared);
  }

  lemma DeclaredIs(all: Crates, declared: map<string, set<string>>)
    requires forall f :: f in declared ==> declared[f] != {}
    requires forall f, c :: Recorded(declared, f, c) <==> DeclaresIn(all, all.Keys, f, c)
    ensures declared == Declared(all)
  {
    forall f
      ensures f in declared <==> f in Declared(all)
    {
      if f in declared {
        var c :| c in declared[f];
        assert Recorded(declared, f, c);
      }
      if f in Declared(all) {
        var c :| c in all && c != UMBRELLA && f in all[c].features && IsExperimental(f);
        assert DeclaresIn(all, all.Keys, f, c);
        assert Recorded(declared, f, c);
      }
    }
    forall f | f in declared
      ensures declared[f] == Declared(all)[f]
    {
      forall c
        ensures c in declared[f] <==> c in Declared(all)[f]
      {
        assert Recorded(declared, f, c) <==> DeclaresIn(all, all.Keys, f, c);
      }
    }
  }

  method AddCrate(all: Crates, ghost crates: set<string>, krate: string, before: map<string, set<string>>)
      returns (declared: map<string, set<string>>)
    requires krate in all
    requires forall f :: f in before ==> before[f] != {}
    requires forall f, c :: Recorded(before, f, c) <==> DeclaresIn(all, crates, f, c)
    ensures forall f :: f in declared ==> declared[f] != {}
    ensures forall f, c :: Recorded(declared, f, c) <==> DeclaresIn(all, crates + {krate}, f, c)
  {
    declared := before;
    var features := all[krate].features.Keys;
    while features != {}
      invariant features <= all[krate].features.Keys
      invariant forall f :: f in declared ==> declared[f] != {}
      invariant forall f, c :: Recorded(declared, f, c) <==>
                  DeclaresIn(all, crates, f, c) || (DeclaresIn(all, {krate}, f, c) && f !in features)
      decreases |features|
    {
      var feature :| feature in features;
      ghost var was := declared;
      if IsExperimental(feature) && krate != UMBRELLA {
        declared := declared[feature := (if feature in declared then declared[feature] else {}) + {krate}];
        forall f, c
          ensures Recorded(declared, f, c) <==> Recorded(was, f, c) || (f == feature && c == krate)
        {
        }
      }
      features := features - {feature};
    }
  }

  // --- the loops over the rules ---------------------------------------------------

  method ReachProblems(all: Crates, ghost table: Table, krate: string) returns (errors: seq<Problem>)
    requires krate in all
    ensures forall e :: e in errors <==> IsReachRule(e) && Subject(e) == krate && Breaks(all, table, e)
  {
    hide Reaches, Declared;
    errors := [];
    var roots := Roots(krate);
    for i := 0 to |roots|
      invariant forall e :: e in errors <==>
                  e.EnablesExperimental? && e.krate == krate && e.root in roots[..i] && Breaks(all, table, e)
    {
      if roots[i] in all[krate].features {
        var reached := Closure(all, krate, roots[i]);
        var found := ExperimentalIn(krate, roots[i], reached);
        errors := errors + found;
      }
      assert roots[..i + 1] == roots[..i] + [roots[i]];
    }
    assert roots[..|roots|] == roots;
    var entries := all[krate].depFeatures;
    for i := 0 to |entries|
      invariant forall e :: e in errors <==>
                  IsReachRule(e) && e.krate == krate && Breaks(all, table, e)
                  && (e.EnablesExperimental? || (e.TurnsOnUnconditionally? && (e.dep, e.feature) in entries[..i]))
    {
      var (dep, f) := entries[i];
      if IsExperimental(f) {
        errors := errors + [TurnsOnUnconditionally(krate, dep, f)];
      }
      assert entries[..i + 1] == entries[..i] + [entries[i]];
    }
    assert entries[..|entries|] == entries;
  }

  method ExperimentalIn(krate: string, root: string, reached: set<Pair>) returns (errors: seq<Problem>)
    ensures forall e :: e in errors <==>
              e.EnablesExperimental? && e.krate == krate && e.root == root && e.target in reached && IsExperimental(e.target.1)
  {
    errors := [];
    var rest := reached;
    while rest != {}
      invariant rest <= reached
      invariant forall e :: e in errors <==>
                  e.EnablesExperimental? && e.krate == krate && e.root == root
                  && e.target in reached - rest && IsExperimental(e.target.1)
      decreases |rest|
    {
      var target :| target in rest;
      if IsExperimental(target.1) {
        errors := errors + [EnablesExperimental(krate, root, target)];
      }
      rest := rest - {target};
    }
  }

  method ForwardingProblems(all: Crates, ghost table: Table, krate: string) returns (errors: seq<Problem>)
    requires krate in all
    ensures forall e :: e in errors <==> e.NotForwarded? && e.krate == krate && Breaks(all, table, e)
  {
    errors := [];
    var manifest := all[krate];
    var features := manifest.features.Keys;
    while features != {}
      invariant features <= manifest.features.Keys
      invariant forall e :: e in errors <==>
                  e.NotForwarded? && e.krate == krate && e.feature !in features && Breaks(all, table, e)
      decreases |features|
    {
      var feature :| feature in features;
      if IsExperimental(feature) {
        var found := UnforwardedTo(all, table, krate, feature);
        errors := errors + found;
      }
      features := features - {feature};
    }
  }

  method UnforwardedTo(all: Crates, ghost table: Table, krate: string, feature: string) returns (errors: seq<Problem>)
    requires Declares(all, krate, feature) && IsExperimental(feature)
    ensures forall e :: e in errors <==>
              e.NotForwarded? && e.krate == krate && e.feature == feature && Breaks(all, table, e)
  {
    errors := [];
    var manifest := all[krate];
    var deps := manifest.deps.Keys;
    while deps != {}
      invariant deps <= manifest.deps.Keys
      invariant forall e :: e in errors <==>
                  e.NotForwarded? && e.krate == krate && e.feature == feature && e.dep !in deps && Breaks(all, table, e)
      decreases |deps|
    {
      var dep :| dep in deps;
      if Declares(all, manifest.deps[dep], feature) && !Forwards(manifest.features[feature], dep, feature) {
        errors := errors + [NotForwarded(krate, feature, dep)];
      }
      deps := deps - {dep};
    }
  }

  method TableProblems(all: Crates, table: Table, declared: map<string, set<string>>) returns (errors: seq<Problem>)
    requires declared == Declared(all)
    ensures forall e :: e in errors <==> IsTableRule(e) && Breaks(all, table, e)
  {
    hide Breaks;
    var rows := DeclaredProblems(all, table, declared);
    var stale := StaleProblems(all, table, declared);
    var umbrella := UmbrellaProblems(all, table, declared);
    errors := rows + stale + umbrella;
    TableSubjects(all, table);
  }

  /** Whether the rule speaks of a feature some crate declares. */
  predicate IsRowRule(e: Problem) {
    IsTableRule(e) && !e.StaleRow? && !e.DeclaredByUmbrellaOnly?
  }

  lemma TableSubjects(all: Crates, table: Table)
    ensures forall e :: IsRowRule(e) && Breaks(all, table, e) ==> e.feature in Declared(all)
  {
    hide Declared;
  }

  method DeclaredProblems(all: Crates, table: Table, declared: map<string, set<string>>) returns (errors: seq<Problem>)
    requires declared == Declared(all)
    ensures forall e :: e in errors <==> IsRowRule(e) && e.feature in declared && Breaks(all, table, e)
  {
    hide Breaks, Declared;
    errors := [];
    var features := declared.Keys;
    while features != {}
      invariant features <= declared.Keys
      invariant forall e :: e in errors <==>
                  IsRowRule(e) && e.feature in declared && e.feature !in features && Breaks(all, table, e)
      decreases |features|
    {
      var feature :| feature in features;
      var found := RowProblems(all, table, declared, feature);
      errors := errors + found;
      features := features - {feature};
    }
  }

  method StaleProblems(all: Crates, table: Table, declared: map<string, set<string>>) returns (errors: seq<Problem>)
    requires declared == Declared(all)
    ensures forall e :: e in errors <==> e.StaleRow? && Breaks(all, table, e)
  {
    hide Declared;
    errors := [];
    var features := table.Keys;
    while features != {}
      invariant features <= table.Keys
      invariant forall e :: e in errors <==> e.StaleRow? && e.feature !in features && Breaks(all, table, e)
      decreases |features|
    {
      var feature :| feature in features;
      if feature !in declared {
        errors := errors + [StaleRow(feature)];
      }
      features := features - {feature};
    }
  }

  method UmbrellaProblems(all: Crates, ghost table: Table, declared: map<string, set<string>>) returns (errors: seq<Problem>)
    requires declared == Declared(all)
    ensures forall e :: e in errors <==> e.DeclaredByUmbrellaOnly? && Breaks(all, table, e)
  {
    hide Declared;
    errors := [];
    var features := if UMBRELLA in all then all[UMBRELLA].features.Keys else {};
    ghost var umbrella := features;
    while features != {}
      invariant features <= umbrella
      invariant forall e :: e in errors <==>
                  e.DeclaredByUmbrellaOnly? && e.feature !in features && Breaks(all, table, e)
      decreases |features|
    {
      var feature :| feature in features;
      if IsExperimental(feature) && feature !in declared {
        errors := errors + [DeclaredByUmbrellaOnly(feature)];
      }
      features := features - {feature};
    }
  }

  method RowProblems(all: Crates, table: Table, declared: map<string, set<string>>, feature: string)
      returns (errors: seq<Problem>)
    requires declared == Declared(all) && feature in declared
    ensures forall e :: e in errors <==> IsRowRule(e) && e.feature == feature && Breaks(all, table, e)
  {
    hide Declared, ExpectedName, UmbrellaAll, Declares, IsExperimental, Reaches, Forwards;
    errors := [];
    if feature !in table {
      errors := errors + [NotInTable(feature)];
    } else {
      var (id, listed) := table[feature];
      var expected := ExpectedName(id);
      if expected != feature {
        errors := errors + [Misnamed(feature, expected)];
      }
      if listed != declared[feature] {
        errors := errors + [WrongCrates(feature)];
      }
    }
    if !Declares(all, UMBRELLA, feature) {
      errors := errors + [NotReexposed(feature)];
    }
    if feature !in UmbrellaAll(all) {
      errors := errors + [NotInExperimental(feature)];
    }
  }

  // --- what an empty report means ------------------------------------------------

  ghost predicate IsClean(all: Crates, table: Table) {
    forall e :: !Breaks(all, table, e)
  }

  /** Cargo's own rule for a dependency key, as far as an entry's syntax depends on it. */
  predicate IsDependencyKey(key: string) {
    '/' !in key && !("dep:" <= key) && (key != "" ==> key[|key| - 1] != '?')
  }

  predicate ValidNames(all: Crates) {
    && (forall c, d :: c in all && d in all[c].deps ==> IsDependencyKey(d))
    && (forall c, f :: c in all && f in all[c].features ==> '/' !in f)
  }

  predicate DependsOn(all: Crates, c: string, package: string) {
    c in all && exists d :: d in all[c].deps && all[c].deps[d] == package
  }

  /** Crates each of which depends on the next. */
  predicate IsDependencyChain(all: Crates, crates: seq<string>) {
    crates != [] && forall i :: 0 <= i < |crates| - 1 ==> DependsOn(all, crates[i], crates[i + 1])
  }

  /** Either spelling of a forwarding entry turns on the dependency's feature. */
  lemma ForwardingEntry(manifest: Crate, c: string, dep: string, feature: string, mark: string)
    requires IsDependencyKey(dep) && dep in manifest.deps && mark in {"", "?"}
    ensures EntryTarget(manifest, c, dep + mark + "/" + feature) == Some((manifest.deps[dep], feature))
  {
    hide EntryTarget;
    var entry := dep + mark + "/" + feature;
    StaysUnprefixed(dep, mark + "/" + feature, "dep:");
    assert entry == dep + (mark + "/" + feature);
    assert IsForward(manifest, entry, (manifest.deps[dep], feature), dep, mark);
    TargetIsSpelled(manifest, c, entry, (manifest.deps[dep], feature));
  }

  lemma StaysUnprefixed(s: string, rest: string, prefix: string)
    requires !(prefix <= s)
    requires rest != "" && rest[0] !in prefix
    ensures !(prefix <= s + rest)
  {
    assert |prefix| <= |s| ==> (s + rest)[..|prefix|] == s[..|prefix|];
    assert |s| < |prefix| ==> (s + rest)[|s|] == rest[0] && prefix[|s|] in prefix;
  }

  /** An entry for the dependency turns on its feature. */
  lemma ForwardedIsEnabled(manifest: Crate, c: string, dep: string, feature: string, entries: seq<string>)
    requires IsDependencyKey(dep) && dep in manifest.deps && Forwards(entries, dep, feature)
    ensures exists e :: e in entries && Spells(manifest, c, e, (manifest.deps[dep], feature))
  {
    hide EntryTarget, IsDependencyKey, Spells;
    var mark := if dep + "/" + feature in entries then "" else "?";
    ForwardingEntry(manifest, c, dep, feature, mark);
    TargetIsSpelled(manifest, c, dep + mark + "/" + feature, (manifest.deps[dep], feature));
    assert dep + mark + "/" + feature == if mark == "" then dep + "/" + feature else dep + "?/" + feature;
  }

  lemma CleanForwards(all: Crates, table: Table, c: string, feature: string, dep: string)
    requires IsClean(all, table) && IsExperimental(feature) && Declares(all, c, feature)
    requires dep in all[c].deps && Declares(all, all[c].deps[dep], feature)
    ensures Forwards(all[c].features[feature], dep, feature)
  {
    hide IsExperimental, Reaches;
    assert !Breaks(all, table, NotForwarded(c, feature, dep));
  }

  lemma ForwardsOneStep(all: Crates, table: Table, c: string, package: string, feature: string)
    requires IsClean(all, table) && ValidNames(all) && IsExperimental(feature)
    requires Declares(all, c, feature) && Declares(all, package, feature) && DependsOn(all, c, package)
    ensures Enables(all, (c, feature), (package, feature))
  {
    hide IsClean, IsExperimental, Forwards, Spells, IsDependencyKey;
    var dep :| dep in all[c].deps && all[c].deps[dep] == package;
    CleanForwards(all, table, c, feature, dep);
    ForwardedIsEnabled(all[c], c, dep, feature, all[c].features[feature]);
  }

  /**
   With an empty report, an experimental feature carries along every dependency chain of
   crates that declare it: turning it on in the first turns it on in the last.
   */
  lemma {:induction false} ForwardsAlongChain(all: Crates, table: Table, crates: seq<string>, feature: string)
    requires IsClean(all, table) && ValidNames(all) && IsExperimental(feature)
    requires IsDependencyChain(all, crates)
    requires forall c :: c in crates ==> Declares(all, c, feature)
    ensures Reaches(all, (crates[0], feature), (crates[|crates| - 1], feature))
    decreases |crates|
  {
    hide IsClean, Reaches, ValidNames;
    ReachesItself(all, (crates[0], feature));
    if |crates| > 1 {
      var front := crates[..|crates| - 1];
      forall i | 0 <= i < |front| - 1
        ensures DependsOn(all, front[i], front[i + 1])
      {
        assert DependsOn(all, crates[i], crates[i + 1]);
      }
      ForwardsAlongChain(all, table, front, feature);
      var last := |crates| - 2;
      assert DependsOn(all, crates[last], crates[last + 1]);
      ForwardsOneStep(all, table, crates[last], crates[last + 1], feature);
      ReachesStep(all, (crates[0], feature), (crates[last], feature), (crates[last + 1], feature));
    }
  }

  /**
   With an empty report the umbrella's `experimental` turns on every declared experimental
   feature, in the umbrella and in every crate a chain of declaring crates leads to.
   */
  lemma ExperimentalReachesAll(all: Crates, table: Table, crates: seq<string>, feature: string)
    requires IsClean(all, table) && ValidNames(all)
    requires feature in Declared(all)
    requires IsDependencyChain(all, crates) && crates[0] == UMBRELLA
    requires forall c :: c in crates[1..] ==> Declares(all, c, feature)
    ensures Declares(all, UMBRELLA, feature)
    ensures Reaches(all, (UMBRELLA, "experimental"), (crates[|crates| - 1], feature))
  {
    hide Reaches, IsClean, ValidNames, Enables, Declares, Declared, IsExperimental, DependsOn;
    UmbrellaEnables(all, table, feature);
    ReachesItself(all, (UMBRELLA, "experimental"));
    ReachesStep(all, (UMBRELLA, "experimental"), (UMBRELLA, "experimental"), (UMBRELLA, feature));
    assert crates == [crates[0]] + crates[1..];
    ForwardsAlongChain(all, table, crates, feature);
    ReachesTrans(all, (UMBRELLA, "experimental"), (UMBRELLA, feature), (crates[|crates| - 1], feature));
  }

  /** A feature the umbrella's `experimental` lists is turned on by it. */
  lemma UmbrellaEnables(all: Crates, table: Table, feature: string)
    requires IsClean(all, table) && ValidNames(all) && feature in Declared(all)
    ensures IsExperimental(feature) && Declares(all, UMBRELLA, feature)
    ensures Enables(all, (UMBRELLA, "experimental"), (UMBRELLA, feature))
  {
    hide Reaches, Enables, Forwards, UmbrellaAll;
    assert !Breaks(all, table, NotReexposed(feature));
    assert !Breaks(all, table, NotInExperimental(feature));
    assert IsExperimental(feature);
    ListedFeature(all, feature);
  }

  lemma ListedFeature(all: Crates, feature: string)
    requires IsExperimental(feature) && '/' !in feature && feature in UmbrellaAll(all)
    ensures Enables(all, (UMBRELLA, "experimental"), (UMBRELLA, feature))
  {
    assert PREFIX[1] == 'x' && feature[1] == PREFIX[1] && "dep:"[1] == 'e';
    assert Spells(all[UMBRELLA], UMBRELLA, feature, (UMBRELLA, feature));
  }

  // --- exactly when the report is empty ---------------------------------------------

  /** Nothing a crate's ordinary builds turn on, along any spelled chain, is experimental. */
  ghost predicate DefaultsAreStable(all: Crates) {
    forall c, root, chain: seq<Pair> :: LeadsFrom(all, c, root, chain) ==> !("experimental-" <= chain[|chain| - 1].1)
  }

  ghost predicate LeadsFrom(all: Crates, c: string, root: string, chain: seq<Pair>) {
    && Declares(all, c, root) && (root == "default" || (root == "full" && c == "agent-framework"))
    && IsChain(all, chain) && chain[0] == (c, root)
  }

  ghost predicate DependenciesAreStable(all: Crates) {
    forall c, entry :: c in all && entry in all[c].depFeatures ==> !("experimental-" <= entry.1)
  }

  /** A crate hands each experimental feature on to every dependency that declares it too. */
  ghost predicate FeaturesAreForwarded(all: Crates) {
    forall c, f, dep ::
      c in all && f in all[c].features && "experimental-" <= f && dep in all[c].deps && Declares(all, all[c].deps[dep], f)
      ==> dep + "/" + f in all[c].features[f] || dep + "?/" + f in all[c].features[f]
  }

  /** A crate other than the umbrella declares the experimental feature `f`. */
  predicate IsGated(all: Crates, f: string, c: string) {
    c != "agent-framework" && Declares(all, c, f) && "experimental-" <= f
  }

  /** The kebab case of an upstream id, letter by letter. */
  predicate IsNamedAfter(f: string, id: string) {
    && |f| == |"experimental-"| + |id| && "experimental-" <= f
    && forall i :: 0 <= i < |id| ==>
         var c := f[|"experimental-"| + i];
         if id[i] == '_' then c == '-'
         else if 'A' <= id[i] <= 'Z' then c as int == id[i] as int + 32
         else c == id[i]
  }

  /** The documentation's table lists each experimental feature, its id and the crates that declare it. */
  ghost predicate TableAgrees(all: Crates, table: Table) {
    && (forall f, c :: IsGated(all, f, c) ==> f in table && c in table[f].1)
    && (forall f :: f in table ==> IsNamedAfter(f, table[f].0) && table[f].1 != {})
    && (forall f, c :: f in table && c in table[f].1 ==> IsGated(all, f, c))
  }

  /** The umbrella declares exactly the experimental features, and its `experimental` lists them. */
  ghost predicate UmbrellaAgrees(all: Crates) {
    && (forall f, c :: IsGated(all, f, c) ==>
          && Declares(all, "agent-framework", f) && Declares(all, "agent-framework", "experimental")
          && f in all["agent-framework"].features["experimental"])
    && (forall f :: Declares(all, "agent-framework", f) && "experimental-" <= f ==> exists c :: IsGated(all, f, c))
  }

  /** The report is empty if and only if the workspace and the table follow the documented rules. */
  lemma CleanExactly(all: Crates, table: Table)
    ensures IsClean(all, table) <==>
            DefaultsAreStable(all) && DependenciesAreStable(all) && FeaturesAreForwarded(all)
            && TableAgrees(all, table) && UmbrellaAgrees(all)
  {
    hide Breaks, DefaultsAreStable, DependenciesAreStable, FeaturesAreForwarded, TableAgrees, UmbrellaAgrees;
    DefaultsExactly(all, table);
    DependenciesExactly(all, table);
    ForwardedExactly(all, table);
    TableExactly(all, table);
    UmbrellaExactly(all, table);
    assert forall e: Problem ::
      || e.EnablesExperimental? || e.TurnsOnUnconditionally? || e.NotForwarded? || SpeaksOfTable(e) || SpeaksOfUmbrella(e);
  }

  predicate SpeaksOfTable(e: Problem) {
    e.NotInTable? || e.Misnamed? || e.WrongCrates? || e.StaleRow?
  }

  predicate SpeaksOfUmbrella(e: Problem) {
    e.NotReexposed? || e.NotInExperimental? || e.DeclaredByUmbrellaOnly?
  }

  lemma DefaultsExactly(all: Crates, table: Table)
    ensures DefaultsAreStable(all) <==> forall e: Problem :: e.EnablesExperimental? ==> !Breaks(all, table, e)
  {
    hide Enables;
    if DefaultsAreStable(all) {
      forall e: Problem | e.EnablesExperimental?
        ensures !Breaks(all, table, e)
      {
        forall chain | LeadsFrom(all, e.krate, e.root, chain)
          ensures chain[|chain| - 1] == e.target ==> !IsExperimental(e.target.1)
        {
        }
        assert Reaches(all, (e.krate, e.root), e.target) ==>
            exists chain :: ChainFrom(all, chain, (e.krate, e.root), e.target);
      }
    }
    if forall e: Problem :: e.EnablesExperimental? ==> !Breaks(all, table, e) {
      forall c, root, chain: seq<Pair> | LeadsFrom(all, c, root, chain)
        ensures !("experimental-" <= chain[|chain| - 1].1)
      {
        var target := chain[|chain| - 1];
        assert ChainFrom(all, chain, (c, root), target);
        assert !Breaks(all, table, EnablesExperimental(c, root, target));
      }
    }
  }

  lemma DependenciesExactly(all: Crates, table: Table)
    ensures DependenciesAreStable(all) <==> forall e: Problem :: e.TurnsOnUnconditionally? ==> !Breaks(all, table, e)
  {
    hide Reaches, Declared;
    if forall e: Problem :: e.TurnsOnUnconditionally? ==> !Breaks(all, table, e) {
      forall c, entry | c in all && entry in all[c].depFeatures
        ensures !("experimental-" <= entry.1)
      {
        assert !Breaks(all, table, TurnsOnUnconditionally(c, entry.0, entry.1));
      }
    }
  }

  lemma ForwardedExactly(all: Crates, table: Table)
    ensures FeaturesAreForwarded(all) <==> forall e: Problem :: e.NotForwarded? ==> !Breaks(all, table, e)
  {
    hide Reaches, Declared;
    if forall e: Problem :: e.NotForwarded? ==> !Breaks(all, table, e) {
      forall c, f, dep |
        c in all && f in all[c].features && "experimental-" <= f && dep in all[c].deps && Declares(all, all[c].deps[dep], f)
        ensures dep + "/" + f in all[c].features[f] || dep + "?/" + f in all[c].features[f]
      {
        assert !Breaks(all, table, NotForwarded(c, f, dep));
      }
    }
  }

  lemma DeclaredIsGated(all: Crates)
    ensures forall f :: f in Declared(all) <==> exists c :: IsGated(all, f, c)
    ensures forall f, c :: f in Declared(all) ==> (c in Declared(all)[f] <==> IsGated(all, f, c))
  {
    forall f, c | IsGated(all, f, c)
      ensures f in Declared(all)
    {
      assert c in all && c != UMBRELLA && f in all[c].features && IsExperimental(f);
    }
    forall f | f in Declared(all)
      ensures exists c :: IsGated(all, f, c)
    {
      var c :| c in all && c != UMBRELLA && f in all[c].features && IsExperimental(f);
      assert IsGated(all, f, c);
    }
  }

  lemma NamedExactly(f: string, id: string)
    ensures IsNamedAfter(f, id) <==> f == ExpectedName(id)
  {
    hide IsNamedAfter, ExpectedName;
    if IsNamedAfter(f, id) {
      NamedIsExpected(f, id);
    }
    if f == ExpectedName(id) {
      ExpectedIsNamed(id);
    }
  }

  lemma NamedIsExpected(f: string, id: string)
    requires IsNamedAfter(f, id)
    ensures f == ExpectedName(id)
  {
    assert f == f[..|PREFIX|] + f[|PREFIX|..];
    forall i | 0 <= i < |id|
      ensures f[|PREFIX|..][i] == LowerDash(id[i])
    {
      assert f[|PREFIX|..][i] == f[|PREFIX| + i];
    }
  }

  lemma ExpectedIsNamed(id: string)
    ensures IsNamedAfter(ExpectedName(id), id)
  {
    var f := ExpectedName(id);
    forall i | 0 <= i < |id|
      ensures f[|PREFIX| + i] == LowerDash(id[i])
    {
      assert f[|PREFIX|..][i] == f[|PREFIX| + i];
    }
  }

  lemma TableExactly(all: Crates, table: Table)
    ensures TableAgrees(all, table) <==> forall e: Problem :: SpeaksOfTable(e) ==> !Breaks(all, table, e)
  {
    hide Declared, ExpectedName, IsNamedAfter, IsGated, Reaches;
    DeclaredIsGated(all);
    forall f | f in table
      ensures IsNamedAfter(f, table[f].0) <==> f == ExpectedName(table[f].0)
    {
      NamedExactly(f, table[f].0);
    }
    if forall e: Problem :: SpeaksOfTable(e) ==> !Breaks(all, table, e) {
      forall f, c | IsGated(all, f, c)
        ensures f in table && c in table[f].1
      {
        assert !Breaks(all, table, NotInTable(f));
        assert !Breaks(all, table, WrongCrates(f));
      }
      forall f | f in table
        ensures IsNamedAfter(f, table[f].0) && f in Declared(all) && table[f].1 == Declared(all)[f]
      {
        assert !Breaks(all, table, StaleRow(f));
        assert !Breaks(all, table, WrongCrates(f));
        assert !Breaks(all, table, Misnamed(f, ExpectedName(table[f].0)));
      }
    }
    if TableAgrees(all, table) {
      forall f | f in table
        ensures f in Declared(all) && table[f].1 == Declared(all)[f]
      {
        var c :| c in table[f].1;
        assert IsGated(all, f, c);
        assert forall k :: k in table[f].1 <==> k in Declared(all)[f];
      }
    }
  }

  lemma UmbrellaExactly(all: Crates, table: Table)
    ensures UmbrellaAgrees(all) <==> forall e: Problem :: SpeaksOfUmbrella(e) ==> !Breaks(all, table, e)
  {
    hide Declared, IsGated, Reaches;
    DeclaredIsGated(all);
    if forall e: Problem :: SpeaksOfUmbrella(e) ==> !Breaks(all, table, e) {
      forall f, c | IsGated(all, f, c)
        ensures Declares(all, UMBRELLA, f) && f in UmbrellaAll(all)
      {
        assert !Breaks(all, table, NotReexposed(f));
        assert !Breaks(all, table, NotInExperimental(f));
      }
      forall f | Declares(all, UMBRELLA, f) && IsExperimental(f)
        ensures exists c :: IsGated(all, f, c)
      {
        assert !Breaks(all, table, DeclaredByUmbrellaOnly(f));
      }
    }
  }
}
