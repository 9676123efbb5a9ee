/**
 * Chained environment frames (parsing/Environment.java). A frame owns two
 * independent stores: a name-to-entry map and an ordered list of slots; each
 * entry is a value with an `initialized` flag. A frame refers to its enclosing
 * frame, fixed at construction; the outermost frame has none.
 */
module Environment {
  import opened Options
  import opened Tokens

  datatype Entry<V> = Entry(value: V, initialized: bool)

  /** How many enclosing links `ancestor(distance)` follows in a chain of `n` links. */
  function Clamp(distance: int, n: nat): (k: nat)
    ensures k <= n
    ensures distance <= 0 ==> k == 0
    ensures 0 <= distance <= n ==> k == distance
    ensures distance > n ==> k == n
  {
    if distance <= 0 then 0 else if distance > n then n else distance
  }

  /** The message `assign` raises for a name no frame of the chain holds. */
  function UndefinedVariable(name: Token): RuntimeError {
    RuntimeError(name, "Undefined variable '" + name.lexeme + "'.")
  }

  class Frame<V> {
    const enclosing: Frame?<V>
    var namedValues: map<string, Entry<V>>
    var indexedValues: seq<Entry<V>>

    /** The enclosing frames, innermost first (ghost: the chain `enclosing` spells out). */
    ghost const outer: seq<Frame<V>>

    /** `outer` lists exactly the frames reached by following `enclosing`. */
    ghost predicate Linked()
      decreases |outer|
    {
      if enclosing == null then outer == []
      else |outer| > 0 && outer[0] == enclosing && outer[1..] == enclosing.outer && enclosing.Linked()
    }

    /** This frame and its enclosing frames, innermost first. */
    ghost function Chain(): seq<Frame<V>> {
      [this] + outer
    }

    ghost function Footprint(): set<Frame<V>> {
      set f | f in Chain()
    }

    /** `Environment()`: an outermost frame with empty stores. */
    constructor Root()
      ensures enclosing == null && outer == [] && Linked()
      ensures namedValues == map[] && indexedValues == []
    {
      enclosing := null;
      outer := [];
      namedValues := map[];
      indexedValues := [];
    }

    /** `Environment(env)`: an empty frame whose enclosing frame is `env`. */
    constructor (env: Frame?<V>)
      requires env != null ==> env.Linked()
      ensures enclosing == env && Linked()
      ensures outer == if env == null then [] else [env] + env.outer
      ensures namedValues == map[] && indexedValues == []
    {
      enclosing := env;
      outer := if env == null then [] else [env] + env.outer;
      namedValues := map[];
      indexedValues := [];
    }

    /** Frame k of the chain is linked, and its own chain is the rest of this one. */
    lemma {:induction false} ChainFrom(k: nat)
      requires Linked() && k < |Chain()|
      ensures Chain()[k].Linked() && Chain()[k].Chain() == Chain()[k..]
      ensures Chain()[k].enclosing == if k + 1 < |Chain()| then Chain()[k + 1] else null
      decreases |outer|
    {
      if k == 0 {
        assert Chain()[0] == this;
        if enclosing != null {
          assert Chain()[1] == outer[0];
        }
      } else {
        enclosing.ChainFrom(k - 1);
        assert Chain()[k..] == enclosing.Chain()[k - 1..];
        assert Chain()[k] == enclosing.Chain()[k - 1];
      }
    }

    /** No frame occurs twice in a chain: following `enclosing` never cycles. */
    lemma ChainDistinct(j: nat, k: nat)
      requires Linked() && j < k < |Chain()|
      ensures Chain()[j] != Chain()[k]
    {
      ChainFrom(j);
      ChainFrom(k);
      assert |Chain()[j].Chain()| != |Chain()[k].Chain()|;
    }

    /** The enclosing frame's footprint is this one's without this frame. */
    lemma EnclosingFootprint()
      requires Linked() && enclosing != null
      ensures enclosing.Linked() && this !in enclosing.Footprint()
      ensures Footprint() == {this} + enclosing.Footprint()
      ensures enclosing.Chain() == Chain()[1..]
    {
      ChainFrom(1);
      forall f | f in enclosing.Footprint() ensures f != this {
        var k :| 0 <= k < |enclosing.Chain()| && enclosing.Chain()[k] == f;
        ChainDistinct(0, k + 1);
      }
    }

    /** The frame `ancestor(distance)` returns, as a chain position. */
    ghost function AncestorAt(distance: int): Frame<V> {
      Chain()[Clamp(distance, |outer|)]
    }

    /** Position in the chain of the innermost frame whose named store holds `name`. */
    ghost function NamedIndex(name: string): (k: Option<nat>)
      reads Footprint()
      ensures k.Some? ==> k.value < |Chain()| && name in Chain()[k.value].namedValues
      ensures k.Some? ==> forall j | 0 <= j < k.value :: name !in Chain()[j].namedValues
      ensures k.None? ==> forall j | 0 <= j < |Chain()| :: name !in Chain()[j].namedValues
    {
      FirstHolding(Chain(), name)
    }

    /** `get(name)`: the named value of this frame alone; absence is Java's NullPointerException. */
    function Get(name: string): (r: Option<V>)
      reads this
      ensures r.Some? <==> name in namedValues
      ensures r.Some? ==> r.value == namedValues[name].value
    {
      if name in namedValues then Some(namedValues[name].value) else None
    }

    /**
     * `tryGet(name)`: walks the chain outwards and returns the value of the
     * innermost frame that names `name`; absence is Java's `null`.
     */
    method TryGet(name: string) returns (r: Option<V>)
      requires Linked()
      ensures NamedIndex(name).None? ==> r == None
      ensures NamedIndex(name).Some? ==> r == Some(Chain()[NamedIndex(name).value].namedValues[name].value)
    {
      var env: Frame?<V> := this;
      ghost var k: nat := 0;
      while env != null
        invariant k <= |Chain()|
        invariant env == if k < |Chain()| then Chain()[k] else null
        invariant forall j | 0 <= j < k :: name !in Chain()[j].namedValues
        decreases |Chain()| - k
      {
        if name in env.namedValues {
          return Some(env.namedValues[name].value);
        }
        ChainFrom(k);
        env := env.enclosing;
        k := k + 1;
      }
      return None;
    }

    /**
     * `ancestor(distance)`: follows at most `distance` enclosing links and stops
     * at the outermost frame when the chain is shorter.
     */
    method Ancestor(distance: int) returns (env: Frame<V>)
      requires Linked()
      ensures env == AncestorAt(distance)
      ensures env.Linked() && env.Chain() == Chain()[Clamp(distance, |outer|)..]
    {
      env := this;
      var i := 0;
      while i < distance
        invariant 0 <= i <= Clamp(distance, |outer|) || (i == 0 && distance <= 0)
        invariant i <= |outer|
        invariant env == Chain()[i]
        invariant i < distance ==> i <= Clamp(distance, |outer|)
        decreases distance - i
      {
        ChainFrom(i);
        if env.enclosing == null {
          ChainFrom(i);
          return;
        }
        env := env.enclosing;
        i := i + 1;
      }
      ChainFrom(i);
    }

    /**
     * `getAt(distance, idx)`: the value in slot `idx` of `ancestor(distance)`,
     * whatever its `initialized` flag; an index outside the slot list is Java's
     * IndexOutOfBoundsException (`None`).
     */
    method GetAt(distance: int, idx: int) returns (r: Option<V>)
      requires Linked()
      ensures var f := AncestorAt(distance);
        r == if 0 <= idx < |f.indexedValues| then Some(f.indexedValues[idx].value) else None
    {
      var env := Ancestor(distance);
      if 0 <= idx < |env.indexedValues| {
        r := Some(env.indexedValues[idx].value);
      } else {
        r := None;
      }
    }

    /**
     * `assignAt(distance, idx, value)`: overwrites slot `idx` of
     * `ancestor(distance)` with the value, now initialized; nothing else changes.
     * `false` stands for the IndexOutOfBoundsException of a missing slot.
     */
    method AssignAt(distance: int, idx: int, value: V) returns (ok: bool)
      requires Linked()
      modifies AncestorAt(distance)
      ensures var f := AncestorAt(distance);
        ok == (0 <= idx < |old(f.indexedValues)|) &&
        f.indexedValues == (if ok then old(f.indexedValues)[idx := Entry(value, true)] else old(f.indexedValues)) &&
        f.namedValues == old(f.namedValues)
    {
      var env := Ancestor(distance);
      ok := 0 <= idx < |env.indexedValues|;
      if ok {
        env.indexedValues := env.indexedValues[idx := Entry(value, true)];
      }
    }

    /** `define(name, value, initialized)`: creates or overwrites the named entry of this frame only. */
    method Define(name: string, value: V, initialized: bool)
      modifies this
      ensures namedValues == old(namedValues)[name := Entry(value, initialized)]
      ensures indexedValues == old(indexedValues)
    {
      namedValues := namedValues[name := Entry(value, initialized)];
    }

    /**
     * `defineIdx(value, initialized)`: appends one slot, so the new slot's index
     * is the number of slots defined before it; earlier slots are unchanged.
     */
    method DefineIdx(value: V, initialized: bool)
      modifies this
      ensures indexedValues == old(indexedValues) + [Entry(value, initialized)]
      ensures indexedValues[|old(indexedValues)|] == Entry(value, initialized)
      ensures namedValues == old(namedValues)
    {
      indexedValues := indexedValues + [Entry(value, initialized)];
    }

    /**
     * `assign(name, value)`: updates the innermost frame of the chain that names
     * `name` (value replaced, entry now initialized); with no such frame it
     * raises "Undefined variable 'name'." and changes nothing.
     */
    method Assign(name: Token, value: V) returns (failure: Option<RuntimeError>, ghost found: Option<nat>)
      requires Linked()
      modifies Footprint()
      decreases |outer|
      ensures found == old(NamedIndex(name.lexeme)) == NamedIndex(name.lexeme)
      ensures failure.None? <==> found.Some?
      ensures failure.Some? ==> failure.value == UndefinedVariable(name)
      ensures forall j | 0 <= j < |Chain()| ::
        Chain()[j].indexedValues == old(Chain()[j].indexedValues) &&
        Chain()[j].namedValues ==
          if found == Some(j)
          then old(Chain()[j].namedValues)[name.lexeme := Entry(value, true)]
          else old(Chain()[j].namedValues)
    {
      if name.lexeme in namedValues {
        AssignHere(name.lexeme, value);
        return None, Some(0);
      }
      if enclosing != null {
        EnclosingFootprint();
        NamedIndexSkipsHead(name.lexeme);
        ghost var inner;
        failure, inner := enclosing.Assign(name, value);
        found := if inner.Some? then Some(inner.value + 1) else None;
        assert namedValues == old(namedValues);
        NamedIndexSkipsHead(name.lexeme);
        return;
      }
      return Some(UndefinedVariable(name)), None;
    }

    /** The first branch of `assign`: this frame names `name`, so its entry is the one updated. */
    method AssignHere(name: string, value: V)
      requires Linked() && name in namedValues
      modifies this
      ensures old(NamedIndex(name)) == Some(0)
      ensures indexedValues == old(indexedValues)
      ensures namedValues == old(namedValues)[name := Entry(value, true)]
      ensures forall j | 0 < j < |Chain()| :: Chain()[j] != this
    {
      namedValues := namedValues[name := Entry(value, true)];
      HeadIsUnique();
    }

    /** This frame occurs only at the head of its chain. */
    lemma HeadIsUnique()
      requires Linked()
      ensures forall j | 0 < j < |Chain()| :: Chain()[j] != this
    {
      forall j | 0 < j < |Chain()| ensures Chain()[j] != this {
        ChainDistinct(0, j);
      }
    }

    /** A name this frame does not hold is found where the enclosing chain finds it. */
    lemma NamedIndexSkipsHead(name: string)
      requires Linked() && enclosing != null && name !in namedValues
      ensures enclosing.Chain() == Chain()[1..]
      ensures NamedIndex(name) == match enclosing.NamedIndex(name)
                                  case None => None
                                  case Some(k) => Some(k + 1)
    {
      ChainFrom(1);
      assert Chain()[1..] == enclosing.Chain();
    }
  }

  /** Position of the first frame of `chain` whose named store holds `name`. */
  ghost function FirstHolding<V>(chain: seq<Frame<V>>, name: string): (k: Option<nat>)
    reads set f | f in chain
    ensures k.Some? ==> k.value < |chain| && name in chain[k.value].namedValues
    ensures k.Some? ==> forall j | 0 <= j < k.value :: name !in chain[j].namedValues
    ensures k.None? ==> forall j | 0 <= j < |chain| :: name !in chain[j].namedValues
  {
    if chain == [] then None
    else if name in chain[0].namedValues then Some(0)
    else match FirstHolding(chain[1..], name)
      case None => None
      case Some(k) => Some(k + 1)
  }
}
