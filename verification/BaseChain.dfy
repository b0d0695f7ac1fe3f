/**
 The `base` chain of a language and what it says about one setting: the first
 explicit value along the chain, taken apart by stripping and put together again
 by resolving.
 */
module BaseChain {
  import opened Wrappers

  const WILDCARD := "_"

  /** The configured languages, each with the `base` it names, if any. */
  type Shape = map<string, Option<string>>

  /** The language whose settings come next; none for `_` and for a self-reference. */
  function Next(shape: Shape, name: string): (next: Option<string>)
    ensures next != Some(name)
  {
    match if name in shape then shape[name] else None
    case None => if name == WILDCARD then None else Some(WILDCARD)
    case Some(base) => if base == name then None else Some(base)
  }

  function Universe(shape: Shape): set<string> {
    shape.Keys + {WILDCARD} + set n | n in shape && shape[n].Some? :: shape[n].value
  }

  lemma OneLess<T>(all: set<T>, seen: set<T>, x: T)
    requires x in all && x !in seen
    ensures |all - (seen + {x})| < |all - seen|
  {
    assert all - (seen + {x}) == all - seen - {x};
  }

  lemma LeftToVisit(shape: Shape, name: string, visited: set<string>)
    requires Next(shape, name).Some? && Next(shape, name).value !in visited
    ensures |Universe(shape) - (visited + {Next(shape, name).value})| < |Universe(shape) - visited|
  {
    var next := Next(shape, name).value;
    assert next in Universe(shape);
    OneLess(Universe(shape), visited, next);
  }

  function ChainFrom(shape: Shape, name: string, visited: set<string>): (chain: seq<string>)
    requires name in visited
    ensures chain != [] && chain[0] == name
    decreases |Universe(shape) - visited|
  {
    match Next(shape, name)
    case None => [name]
    case Some(next) =>
      if next in visited then [name]
      else
        LeftToVisit(shape, name, visited);
        [name] + ChainFrom(shape, next, visited + {next})
  }

  /** From the language itself to the root it inherits from. */
  function Chain(shape: Shape, name: string): seq<string> {
    ChainFrom(shape, name, {name})
  }

  function Root(shape: Shape, name: string): string {
    var chain := Chain(shape, name);
    chain[|chain| - 1]
  }

  /** The chain reaches a root instead of coming back to a language it has seen. */
  predicate Terminates(shape: Shape, name: string) {
    Next(shape, Root(shape, name)).None?
  }

  lemma ChainExtends(before: seq<string>, shape: Shape, name: string, visited: set<string>)
    requires name in visited && Next(shape, name).Some? && Next(shape, name).value !in visited
    ensures var next := Next(shape, name).value;
            before + ChainFrom(shape, name, visited) == before + [name] + ChainFrom(shape, next, visited + {next})
  {
    var next := Next(shape, name).value;
    var rest := ChainFrom(shape, next, visited + {next});
    assert ChainFrom(shape, name, visited) == [name] + rest;
    assert before + ([name] + rest) == before + [name] + rest;
  }

  /** The chain ends where the walk stops. */
  lemma WalkEnds(before: seq<string>, shape: Shape, name: string, current: string, visited: set<string>)
    requires current in visited && before + ChainFrom(shape, current, visited) == Chain(shape, name)
    requires Next(shape, current).Some? ==> Next(shape, current).value in visited
    ensures Chain(shape, name) == before + [current] && Root(shape, name) == current
  {
    assert ChainFrom(shape, current, visited) == [current];
  }

  /** `build_base_chain`; `circular` is the warning it logs. */
  method BuildBaseChain(shape: Shape, name: string) returns (chain: seq<string>, circular: bool)
    ensures chain == Chain(shape, name) && circular == !Terminates(shape, name)
  {
    chain, circular := [name], false;
    var visited := {name};
    var current := name;
    ghost var before: seq<string> := [];
    while true
      invariant current in visited && chain == before + [current] && !circular
      invariant before + ChainFrom(shape, current, visited) == Chain(shape, name)
      decreases |Universe(shape) - visited|
    {
      var base;
      match if current in shape then shape[current] else None {
        case None =>
          if current == WILDCARD {
            WalkEnds(before, shape, name, current, visited);
            return;
          }
          base := WILDCARD;
        case Some(named) => base := named;
      }
      if base == current {
        WalkEnds(before, shape, name, current, visited);
        return;
      }
      if base in visited {
        circular := true;
        WalkEnds(before, shape, name, current, visited);
        return;
      }
      LeftToVisit(shape, current, visited);
      ChainExtends(before, shape, current, visited);
      before := chain;
      visited := visited + {base};
      chain := chain + [base];
      current := base;
    }
  }

  // ---------------------------------------------------------------- one setting along the chain

  function Own<V>(values: map<string, Option<V>>, name: string): Option<V> {
    if name in values then values[name] else None
  }

  /** The most specific explicit value. */
  function First<V>(values: map<string, Option<V>>, chain: seq<string>): Option<V> {
    if chain == [] then None
    else if Own(values, chain[0]).Some? then Own(values, chain[0])
    else First(values, chain[1..])
  }

  function Value<V>(shape: Shape, values: map<string, Option<V>>, name: string): Option<V> {
    First(values, Chain(shape, name))
  }

  lemma {:induction false} FirstAppend<V>(values: map<string, Option<V>>, a: seq<string>, b: seq<string>)
    ensures First(values, a + b) == if First(values, a).Some? then First(values, a) else First(values, b)
  {
    if a == [] {
      assert a + b == b;
    } else {
      assert (a + b)[1..] == a[1..] + b;
      FirstAppend(values, a[1..], b);
    }
  }

  lemma {:induction false} FirstNone<V>(values: map<string, Option<V>>, chain: seq<string>)
    ensures First(values, chain) == None <==> forall c :: c in chain ==> Own(values, c) == None
  {
    if chain != [] {
      FirstNone(values, chain[1..]);
      assert chain == [chain[0]] + chain[1..];
    }
  }

  /** Not visiting `x`, whose next is visited already, cuts the chain at `x` and nowhere else. */
  lemma {:induction false} CutChain(shape: Shape, name: string, visited: set<string>, x: string)
    requires name in visited && x !in visited
    requires Next(shape, x).Some? && Next(shape, x).value in visited
    ensures var whole, cut := ChainFrom(shape, name, visited), ChainFrom(shape, name, visited + {x});
            whole == cut || whole == cut + [x]
    decreases |Universe(shape) - visited|
  {
    var next := Next(shape, name);
    if next.Some? && next.value !in visited {
      LeftToVisit(shape, name, visited);
      if next.value != x {
        CutChain(shape, next.value, visited + {next.value}, x);
        assert visited + {next.value} + {x} == visited + {x} + {next.value};
      }
    }
  }

  /** The heart of the fold: a language has its own value, or what the next one
      resolves to, even when the chain comes back to it. */
  lemma ValueStep<V>(shape: Shape, values: map<string, Option<V>>, name: string)
    ensures var next := Next(shape, name);
            Value(shape, values, name) ==
            if Own(values, name).Some? then Own(values, name)
            else if next.Some? then Value(shape, values, next.value)
            else None
  {
    var next := Next(shape, name);
    if next.Some? {
      var rest := ChainFrom(shape, next.value, {name} + {next.value});
      assert Chain(shape, name) == [name] + rest;
      FirstAppend(values, [name], rest);
      CutChain(shape, next.value, {next.value}, name);
      assert {next.value} + {name} == {name} + {next.value};
      FirstAppend(values, rest, [name]);
    }
    assert First(values, [name]) == Own(values, name) by {
      assert [name][1..] == [];
    }
  }

  // ---------------------------------------------------------------- stripping

  /** `inherited_language_settings`: the configured language this one inherits from. */
  function Parent(shape: Shape, name: string): (parent: Option<string>)
    requires name in shape
    ensures parent.Some? ==> parent.value in shape
  {
    if shape[name] == Some(name) then None
    else if shape[name].Some? && shape[name].value in shape then shape[name]
    else if name != WILDCARD && WILDCARD in shape then Some(WILDCARD)
    else None
  }

  function Resolved<V>(shape: Shape, values: map<string, Option<V>>): map<string, Option<V>> {
    map n | n in shape :: Value(shape, values, n)
  }

  function Stripped<V(==)>(shape: Shape, resolved: map<string, Option<V>>): map<string, Option<V>>
    requires resolved.Keys == shape.Keys
  {
    map n | n in shape ::
      var parent := Parent(shape, n);
      if parent.Some? && resolved[n] == resolved[parent.value] then None else resolved[n]
  }

  /** Stripping compares with what the chain would supply, past missing entries. */
  lemma ParentSuppliesNext<V>(shape: Shape, values: map<string, Option<V>>, name: string)
    requires values.Keys == shape.Keys
    requires name in shape && Parent(shape, name).Some?
    ensures Next(shape, name).Some?
    ensures Value(shape, values, Next(shape, name).value) == Value(shape, values, Parent(shape, name).value)
  {
    var next := Next(shape, name).value;
    if next != Parent(shape, name).value {
      ValueStep(shape, values, next);
    }
  }

  lemma StrippedMeansInherited<V>(shape: Shape, values: map<string, Option<V>>, name: string)
    requires values.Keys == shape.Keys
    requires Own(Stripped(shape, Resolved(shape, values)), name) == None && Next(shape, name).Some?
    ensures Value(shape, values, name) == Value(shape, values, Next(shape, name).value)
  {
    ValueStep(shape, values, name);
    if name in shape && Parent(shape, name).Some? {
      ParentSuppliesNext(shape, values, name);
    }
  }

  /** Along a chain, the first value that survives stripping is the one the whole
      chain had; if none survives, the chain had one value throughout. */
  lemma {:induction false} AlongTheChain<V>(shape: Shape, values: map<string, Option<V>>, name: string,
                                            visited: set<string>)
    requires values.Keys == shape.Keys
    requires name in visited
    ensures var kept := Stripped(shape, Resolved(shape, values));
            var chain := ChainFrom(shape, name, visited);
            && (First(kept, chain).Some? ==> First(kept, chain) == Value(shape, values, name))
            && (First(kept, chain).None? ==>
                  forall c :: c in chain ==> Value(shape, values, c) == Value(shape, values, name))
    decreases |Universe(shape) - visited|
  {
    var kept := Stripped(shape, Resolved(shape, values));
    var chain := ChainFrom(shape, name, visited);
    var next := Next(shape, name);
    if next.Some? && next.value !in visited {
      LeftToVisit(shape, name, visited);
      AlongTheChain(shape, values, next.value, visited + {next.value});
      assert chain[1..] == ChainFrom(shape, next.value, visited + {next.value});
      if Own(kept, name).None? {
        StrippedMeansInherited(shape, values, name);
      }
    }
  }

  /** Where a chain stops: at a root, or because it came back. */
  lemma {:induction false} ChainEnd(shape: Shape, name: string, visited: set<string>)
    requires name in visited
    ensures var chain := ChainFrom(shape, name, visited);
            var next := Next(shape, chain[|chain| - 1]);
            next.Some? ==> next.value in visited || next.value in chain
    decreases |Universe(shape) - visited|
  {
    var next := Next(shape, name);
    if next.Some? && next.value !in visited {
      LeftToVisit(shape, name, visited);
      ChainEnd(shape, next.value, visited + {next.value});
    }
  }

  lemma {:induction false} ChainLinks(shape: Shape, name: string, visited: set<string>, k: nat)
    requires name in visited && k + 1 < |ChainFrom(shape, name, visited)|
    ensures var chain := ChainFrom(shape, name, visited);
            Next(shape, chain[k]) == Some(chain[k + 1])
    decreases k
  {
    var next := Next(shape, name);
    assert next.Some? && next.value !in visited;
    LeftToVisit(shape, name, visited);
    assert ChainFrom(shape, name, visited)[1..] == ChainFrom(shape, next.value, visited + {next.value});
    if k > 0 {
      ChainLinks(shape, next.value, visited + {next.value}, k - 1);
    }
  }

  /** Inheritance from `name` goes round and round among languages that set this
      value to one thing at most, and at least once where it comes back: then each
      looks inherited from the next. */
  ghost predicate Lost<V>(shape: Shape, values: map<string, Option<V>>, name: string) {
    var chain := Chain(shape, name);
    var shared := Value(shape, values, Root(shape, name));
    && (forall c :: c in chain && c in shape ==> Parent(shape, c).Some?)
    && shared.Some?
    && (forall c :: c in chain ==> Own(values, c) == None || Own(values, c) == shared)
  }

  lemma SharedAt<V>(shape: Shape, values: map<string, Option<V>>, name: string, c: string)
    requires values.Keys == shape.Keys
    requires Lost(shape, values, name) && c in Chain(shape, name)
    ensures Value(shape, values, c) == Value(shape, values, Root(shape, name))
  {
    var chain := Chain(shape, name);
    var k :| 0 <= k < |chain| && chain[k] == c;
    SharedThroughout(shape, values, name, |chain| - 1 - k);
  }

  /** A chain that does not end at `c` goes on inside itself. */
  lemma NextInChain(shape: Shape, name: string, c: string)
    requires c in Chain(shape, name) && Next(shape, c).Some?
    ensures Next(shape, c).value in Chain(shape, name)
  {
    var chain := Chain(shape, name);
    var k :| 0 <= k < |chain| && chain[k] == c;
    if k < |chain| - 1 {
      ChainLinks(shape, name, {name}, k);
    } else {
      ChainEnd(shape, name, {name});
    }
  }

  lemma StrippedInTheLoop<V>(shape: Shape, values: map<string, Option<V>>, name: string, c: string)
    requires values.Keys == shape.Keys
    requires Lost(shape, values, name) && c in Chain(shape, name)
    ensures Own(Stripped(shape, Resolved(shape, values)), c) == None
  {
    if c in shape {
      ParentSuppliesNext(shape, values, c);
      NextInChain(shape, name, c);
      SharedAt(shape, values, name, c);
      SharedAt(shape, values, name, Next(shape, c).value);
    }
  }

  lemma LostIsStrippedThroughout<V>(shape: Shape, values: map<string, Option<V>>, name: string)
    requires values.Keys == shape.Keys
    requires Lost(shape, values, name)
    ensures Value(shape, values, name).Some?
    ensures Value(shape, Stripped(shape, Resolved(shape, values)), name) == None
  {
    var kept := Stripped(shape, Resolved(shape, values));
    var chain := Chain(shape, name);
    SharedThroughout(shape, values, name, |chain| - 1);
    forall c | c in chain
      ensures Own(kept, c) == None
    {
      StrippedInTheLoop(shape, values, name, c);
    }
    FirstNone(kept, chain);
  }

  lemma {:induction false} SharedThroughout<V>(shape: Shape, values: map<string, Option<V>>, name: string, n: nat)
    requires values.Keys == shape.Keys
    requires Lost(shape, values, name) && n < |Chain(shape, name)|
    ensures Value(shape, values, Chain(shape, name)[|Chain(shape, name)| - 1 - n]) ==
            Value(shape, values, Root(shape, name))
  {
    if n > 0 {
      SharedThroughout(shape, values, name, n - 1);
      var chain := Chain(shape, name);
      var c := chain[|chain| - 1 - n];
      ChainLinks(shape, name, {name}, |chain| - 1 - n);
      assert c in chain;
      ValueStep(shape, values, c);
    }
  }

  lemma UnkeptIsLost<V>(shape: Shape, values: map<string, Option<V>>, name: string)
    requires values.Keys == shape.Keys
    requires Value(shape, values, name).Some?
    requires Value(shape, Stripped(shape, Resolved(shape, values)), name) == None
    ensures Lost(shape, values, name)
  {
    var kept := Stripped(shape, Resolved(shape, values));
    var chain := Chain(shape, name);
    AlongTheChain(shape, values, name, {name});
    FirstNone(kept, chain);
    forall c | c in chain
      ensures Own(values, c) == None || Own(values, c) == Value(shape, values, name)
    {
      ValueStep(shape, values, c);
    }
  }

  /** Resolving what stripping left gives a language its value back, unless the
      value is lost in a loop; and then it is always gone. */
  lemma RestoredUnlessLost<V>(shape: Shape, values: map<string, Option<V>>, name: string)
    requires values.Keys == shape.Keys
    requires name in shape
    ensures var kept := Stripped(shape, Resolved(shape, values));
            && (Value(shape, kept, name) == Value(shape, values, name) <==> !Lost(shape, values, name))
            && (Lost(shape, values, name) ==> Value(shape, kept, name) == None)
  {
    var kept := Stripped(shape, Resolved(shape, values));
    AlongTheChain(shape, values, name, {name});
    if Lost(shape, values, name) {
      LostIsStrippedThroughout(shape, values, name);
    } else if Value(shape, kept, name) == None && Value(shape, values, name).Some? {
      UnkeptIsLost(shape, values, name);
    }
  }

  /** Nothing is lost on a chain that reaches a root. */
  lemma TerminatingIsNotLost<V>(shape: Shape, values: map<string, Option<V>>, name: string)
    requires values.Keys == shape.Keys
    requires Terminates(shape, name)
    ensures !Lost(shape, values, name)
  {
    var root := Root(shape, name);
    ValueStep(shape, values, root);
    assert root in Chain(shape, name);
    if root in shape && Parent(shape, root).Some? {
      ParentSuppliesNext(shape, values, root);
    }
  }
}
