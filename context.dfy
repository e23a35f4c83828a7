/** The per-request dispatch context (context.go): the cursor that walks the
    handler chain, abort, the key/value bag, the error list, path parameters
    and the bracketed form-map helper. */
module Context {
  import opened Lang
  import opened Errors
  import opened Jin
  import Tree

  /** `abortIndex`: half of the largest `int8`; a cursor at or past it marks the chain as stopped. */
  const AbortIndex: int := 127 / 2

  /** What a dispatch did, in order: the handler at a position ran, or the chain was aborted. */
  datatype Event = Ran(position: int) | Aborted

  /** How a run of the chain ended: normally, by a panic, or because the step budget ran out. */
  datatype Run = Done | Panicked(message: string) | OutOfFuel

  /** Once the chain has been aborted, no handler runs any more. */
  ghost predicate Halted(trace: seq<Event>) {
    forall i, j :: 0 <= i < j < |trace| && trace[i].Aborted? ==> !trace[j].Ran?
  }

  /** `Halted`, and after an abort the cursor stays at or past `AbortIndex`. */
  ghost predicate Calm(trace: seq<Event>, index: int) {
    Halted(trace) && (Aborted in trace ==> index >= AbortIndex)
  }

  lemma HaltedRan(trace: seq<Event>, p: int)
    requires Halted(trace) && Aborted !in trace
    ensures Halted(trace + [Ran(p)])
  {
  }

  lemma HaltedAbort(trace: seq<Event>)
    requires Halted(trace)
    ensures Halted(trace + [Aborted]) && Aborted in trace + [Aborted]
  {
    var t := trace + [Aborted];
    assert t[|trace|] == Aborted;
    forall i, j | 0 <= i < j < |t| && t[i].Aborted? ensures !t[j].Ran? {
      if j < |trace| { assert t[i] == trace[i] && t[j] == trace[j]; }
    }
  }

  /** The handlers at positions `from` up to `to`, each run once, in order. */
  function Runs(from: int, to: int): (r: seq<Event>)
    requires from <= to
    ensures |r| == to - from
    ensures forall k :: 0 <= k < |r| ==> r[k] == Ran(from + k)
  {
    seq(to - from, k requires 0 <= k < to - from => Ran(from + k))
  }

  lemma RunsStep(t: seq<Event>, from: int, to: int)
    requires from <= to
    ensures t + Runs(from, to) + [Ran(to)] == t + Runs(from, to + 1)
  {
    assert Runs(from, to) + [Ran(to)] == Runs(from, to + 1);
  }

  /** A handler that neither moves the cursor (no `Next`, no `Abort`) nor panics. */
  ghost predicate Quiet(h: HandlerFunc) {
    forall k :: 0 <= k < |h.steps| ==>
      h.steps[k].Noop? || h.steps[k].SetKey? || (h.steps[k].Raise? && !h.steps[k].err.NilError?)
  }

  /** A chain of quiet handlers, short enough for `int8`, a cursor that can
      still move forward without wrapping, and a budget for every handler. */
  ghost predicate Orderly(handlers: HandlerChain, index: int, fuel: nat) {
    (forall k :: 0 <= k < |handlers| ==> Quiet(handlers[k])) &&
    -1 <= index < 127 && |handlers| <= 127 && fuel >= |handlers|
  }

  /** Where the cursor of an orderly run stops: one past the last handler,
      or one past where it was when that is further on. */
  function OrderlyEnd(len: nat, index: int): (r: int)
    requires -1 <= index
    ensures r >= index + 1 && r >= len && (r == index + 1 || r == len)
  {
    if index + 1 >= len then index + 1 else len
  }

  /** The key set of the bag, a nil bag reading as an empty one. */
  function Bag(keys: Option<map<string, Value>>): (r: map<string, Value>)
    ensures keys.None? ==> r == map[]
    ensures keys.Some? ==> r == keys.value
  {
    if keys.Some? then keys.value else map[]
  }

  /** Go's message for a missing key in `MustGet`. */
  function MissingKeyMessage(key: string): string {
    "Key \"" + key + "\" does not exist"
  }

  const NilErrorMessage: string := "err is nil"

  class Context {
    var params: Tree.Params
    var handlers: HandlerChain
    var index: int
    var fullPath: string
    var keys: Option<map<string, Value>>
    var errors: seq<Error>
    /** Every handler run and every abort, since the last reset. */
    ghost var trace: seq<Event>

    /** The cursor is an `int8`. */
    ghost predicate Valid()
      reads this`index
    {
      -128 <= index < 128
    }

    /** The zero `Context`, as the engine allocates it before its first reset. */
    constructor ()
      ensures Valid()
      ensures params == [] && handlers == [] && index == 0 && fullPath == ""
      ensures keys == None && errors == [] && trace == []
      ensures forall k :: Get(k) == (Nil, false) && MustGet(k) == Panic(MissingKeyMessage(k))
    {
      params, handlers, index, fullPath := [], [], 0, "";
      keys, errors, trace := None, [], [];
    }

    /** `reset` clears everything a request left behind and rewinds the cursor before the first handler. */
    method Reset()
      modifies this
      ensures Valid() && !IsAborted()
      ensures params == [] && handlers == [] && index == -1 && fullPath == ""
      ensures keys == None && errors == [] && trace == []
      ensures forall k :: Get(k) == (Nil, false) && MustGet(k) == Panic(MissingKeyMessage(k))
    {
      params, handlers, index, fullPath := [], [], -1, "";
      keys, errors, trace := None, [], [];
    }

    /** `Copy` makes a detached, already-aborted context with its own bag and parameters of the same content. */
    method Copy() returns (cp: Context)
      ensures fresh(cp) && cp.Valid() && cp.IsAborted()
      ensures cp.index == AbortIndex
      ensures cp.keys == Some(Bag(keys))
      ensures forall k :: cp.Get(k) == Get(k)
      ensures cp.params == params && cp.handlers == handlers
      ensures cp.fullPath == fullPath && cp.errors == errors
    {
      cp := new Context();
      cp.params, cp.handlers, cp.index, cp.fullPath := params, handlers, AbortIndex, fullPath;
      cp.keys, cp.errors := Some(Bag(keys)), errors;
    }

    /** `IsAborted`: the cursor has reached `AbortIndex`. */
    predicate IsAborted()
      reads this`index
    {
      index >= AbortIndex
    }

    /** `Abort` parks the cursor at `AbortIndex`, wherever it was. */
    method Abort()
      modifies this`index, this`trace
      ensures Valid() && IsAborted() && index == AbortIndex
      ensures trace == old(trace) + [Aborted]
    {
      index := AbortIndex;
      trace := trace + [Aborted];
    }

    /** `Next` advances the cursor and runs every handler from there on, each
        of which may itself call `Next` or `Abort`.  The cursor and the length
        test are `int8`: a cursor past 127 wraps to -128, which Go then
        rejects as a slice index, and a chain of 128 handlers (or any length
        whose `int8` truncation is negative) runs nothing at all. */
    method Next(fuel: nat) returns (run: Run)
      requires Valid()
      modifies this
      decreases fuel, 0
      ensures Valid() && handlers == old(handlers) && params == old(params) && fullPath == old(fullPath)
      ensures old(trace) <= trace
      ensures run.Done? ==> index >= Int8(|handlers|)
      ensures 0 <= Inc8(old(index)) && Int8(|handlers|) <= Inc8(old(index)) ==>
                run == Done && index == Inc8(old(index)) && trace == old(trace)
      ensures |handlers| <= AbortIndex + 1 && old(Calm(trace, index)) ==>
                Halted(trace) && (run.Done? ==> Calm(trace, index))
      ensures Orderly(handlers, old(index), fuel) ==>
                run == Done && index == OrderlyEnd(|handlers|, old(index)) &&
                trace == old(trace) + Runs(old(index) + 1, index)
    {
      ghost var t0, i0 := trace, index;
      ghost var watch := |handlers| <= AbortIndex + 1 && Calm(trace, index);
      ghost var orderly := Orderly(handlers, index, fuel);
      index := Inc8(index);
      var f: nat := fuel;
      ghost var entered := false;
      var bound := Int8(|handlers|);
      run := Done;
      while run.Done? && index < bound
        invariant Valid() && handlers == old(handlers) && params == old(params) && fullPath == old(fullPath)
        invariant f <= fuel && t0 <= trace
        invariant watch ==> Halted(trace) && (run.Done? && Aborted in trace ==> index > AbortIndex || index == -128)
        invariant orderly ==> run.Done? && i0 + 1 <= index && (index <= |handlers| || index == i0 + 1) &&
                              f + index >= |handlers| && trace == t0 + Runs(i0 + 1, index)
        invariant !entered ==> run.Done? && index == Inc8(i0) && trace == t0
        invariant entered ==> Inc8(i0) < bound
        decreases f, if run.Done? then 1 else 0
      {
        entered := true;
        if index < 0 {
          run := Panicked(Tree.IndexOutOfRange);
        } else if f == 0 {
          run := OutOfFuel;
        } else {
          if orderly {
            RunsStep(t0, i0 + 1, index);
          }
          run := RunAt(f - 1);
          if run.Done? {
            index := Inc8(index);
            f := f - 1;
          }
        }
      }
    }

    /** One turn of `Next`'s loop: record and run the handler under the cursor. */
    method RunAt(fuel: nat) returns (run: Run)
      requires Valid() && 0 <= index < |handlers|
      modifies this
      decreases fuel, 2
      ensures Valid() && handlers == old(handlers) && params == old(params) && fullPath == old(fullPath)
      ensures old(trace) + [Ran(old(index))] <= trace
      ensures |handlers| <= AbortIndex + 1 && old(Calm(trace, index)) && Aborted !in old(trace) ==>
                Halted(trace) && (run.Done? ==> Calm(trace, index))
      ensures Quiet(old(handlers[index])) ==>
                run == Done && index == old(index) && trace == old(trace) + [Ran(index)]
    {
      if |handlers| <= AbortIndex + 1 && Calm(trace, index) && Aborted !in trace {
        HaltedRan(trace, index);
      }
      trace := trace + [Ran(index)];
      run := RunHandler(handlers[index], fuel);
    }

    /** Runs one handler's steps against this context, stopping at the first panic. */
    method RunHandler(h: HandlerFunc, fuel: nat) returns (run: Run)
      requires Valid()
      modifies this
      decreases fuel, 1
      ensures Valid() && handlers == old(handlers) && params == old(params) && fullPath == old(fullPath)
      ensures old(trace) <= trace
      ensures |handlers| <= AbortIndex + 1 && old(Calm(trace, index)) ==>
                Halted(trace) && (run.Done? ==> Calm(trace, index))
      ensures Quiet(h) ==> run == Done && index == old(index) && trace == old(trace)
    {
      ghost var watch := |handlers| <= AbortIndex + 1 && Calm(trace, index);
      var k := 0;
      while k < |h.steps|
        invariant 0 <= k <= |h.steps|
        invariant Valid() && handlers == old(handlers) && params == old(params) && fullPath == old(fullPath)
        invariant watch ==> Calm(trace, index)
        invariant old(trace) <= trace
        invariant Quiet(h) ==> index == old(index) && trace == old(trace)
      {
        match h.steps[k] {
          case Noop =>
          case CallNext =>
            run := Next(fuel);
            if !run.Done? {
              return;
            }
          case AbortChain =>
            if watch {
              HaltedAbort(trace);
            }
            Abort();
          case SetKey(key, value) =>
            Set(key, value);
          case Raise(err) =>
            var e := Error(err);
            if e.Panic? {
              return Panicked(e.message);
            }
        }
        k := k + 1;
      }
      run := Done;
    }

    /** `Error` records an error: nil panics, an `*Error` is kept as it is,
        anything else is wrapped as a private `*Error`. */
    method Error(err: ErrorArg) returns (r: Outcome<Error>)
      modifies this`errors
      ensures r.Panic? <==> err.NilError?
      ensures r.Panic? ==> r.message == NilErrorMessage && errors == old(errors)
      ensures r.Ok? ==> errors == old(errors) + [r.value]
      ensures err.AsError? ==> r == Ok(err.e)
      ensures err.Foreign? ==>
                r.Ok? && fresh(r.value) && r.value.err == Some(err.message) && r.value.errType == ErrorTypePrivate && r.value.meta == Nil
    {
      match err {
        case NilError =>
          return Panic(NilErrorMessage);
        case AsError(e) =>
          r := Ok(e);
        case Foreign(m) =>
          var wrapped := new Error(Some(m), ErrorTypePrivate);
          r := Ok(wrapped);
      }
      errors := errors + [r.value];
    }

    /** `Set` allocates the bag on first use and then stores the value. */
    method Set(key: string, value: Value)
      modifies this`keys
      ensures keys == Some(old(Bag(keys))[key := value])
      ensures Get(key) == (value, true)
      ensures forall k :: k != key ==> Get(k) == old(Get(k))
    {
      if keys.None? {
        keys := Some(map[]);
      }
      keys := Some(keys.value[key := value]);
    }

    /** `Get`: the stored value and whether it exists; a nil bag holds nothing. */
    function Get(key: string): (r: (Value, bool))
      reads this`keys
      ensures r.1 <==> key in Bag(keys)
      ensures r.1 ==> r.0 == Bag(keys)[key]
      ensures !r.1 ==> r.0 == Nil
    {
      if keys.Some? && key in keys.value then (keys.value[key], true) else (Nil, false)
    }

    /** `MustGet` returns what `Get` finds and panics when the key is absent. */
    function MustGet(key: string): (r: Outcome<Value>)
      reads this`keys
      ensures r.Ok? <==> Get(key).1
      ensures r.Ok? ==> r.value == Get(key).0
      ensures r.Panic? ==> r.message == MissingKeyMessage(key)
    {
      var (v, ok) := Get(key);
      if ok then Ok(v) else Panic(MissingKeyMessage(key))
    }

    /** `GetString`: the stored string, or "" when the key is absent, nil or not a string. */
    function GetString(key: string): (s: string)
      reads this`keys
      ensures s != "" ==> Get(key) == (Str(s), true)
      ensures Get(key).0.Str? ==> s == Get(key).0.s
    {
      match Get(key).0
      case Str(v) => v
      case _ => ""
    }

    /** `GetBool`: the stored boolean, or false when the key is absent, nil or not a boolean. */
    function GetBool(key: string): (b: bool)
      reads this`keys
      ensures b <==> Get(key) == (Bool(true), true)
    {
      match Get(key).0
      case Bool(v) => v
      case _ => false
    }

    /** `GetInt`: the stored integer, or 0 when the key is absent, nil or not an integer. */
    function GetInt(key: string): (i: int)
      reads this`keys
      ensures i != 0 ==> Get(key) == (Int(i), true)
      ensures Get(key).0.Int? ==> i == Get(key).0.i
    {
      match Get(key).0
      case Int(v) => v
      case _ => 0
    }

    /** `Param` goes through `Params.ByName`, so it too finds only the parameter named "name". */
    method Param(key: string) returns (v: string)
      ensures v == if Tree.FirstValue(params, "name").Some? then Tree.FirstValue(params, "name").value else ""
    {
      v := Tree.ByName(params, key);
    }
  }

  // ---------------------------------------------------------------------
  // The bracketed form-map helper
  // ---------------------------------------------------------------------

  /** The `sub` of a form key shaped `key[sub]…`: the first '[' must close a
      prefix equal to the literal "key" (the requested name is never used),
      and a ']' must follow at least one character later. */
  function BracketKey(k: string): (r: Option<string>)
  {
    var i := Tree.IndexByte(k, '[');
    if i >= 1 && k[..i] == "key" then
      var j := Tree.IndexByte(k[i + 1..], ']');
      if j >= 1 then Some(k[i + 1..][..j]) else None
    else None
  }

  /** A key is bracketed exactly when it starts with "key[" and a non-empty
      run of characters other than ']' is closed by a ']'; that run is its `sub`. */
  lemma BracketKeySpec(k: string)
    ensures BracketKey(k).Some? <==> |k| >= 5 && k[..4] == "key[" && k[4] != ']' && ']' in k[4..]
    ensures BracketKey(k).Some? ==>
              var sub := BracketKey(k).value;
              |sub| >= 1 && 5 + |sub| <= |k| && k[..4] + sub + "]" == k[..5 + |sub|] &&
              forall p :: 0 <= p < |sub| ==> sub[p] != ']'
  {
    var i := Tree.IndexByte(k, '[');
    var opens := |k| >= 4 && k[..4] == "key[";
    if opens {
      assert k[3] == '[' && k[0] != '[' && k[1] != '[' && k[2] != '[';
      assert i == 3;
      assert k[..i] == "key";
    }
    assert (i >= 1 && k[..i] == "key") <==> opens;
    if opens {
      var rest := k[4..];
      var j := Tree.IndexByte(rest, ']');
      if j >= 1 {
        var sub := rest[..j];
        assert k[..4] + sub + "]" == k[..5 + j];
      } else if j == 0 {
        assert k[4] == ']';
      }
    }
  }

  /** After visiting the keys in `seen`, `exist` says some of them is
      bracketed, and `dists` maps exactly their `sub`s, each to the first value
      of one of the keys carrying it. */
  ghost predicate Collected(m: map<string, seq<string>>, seen: set<string>, dists: map<string, string>, exist: bool)
    requires seen <= m.Keys
  {
    (exist <==> exists k :: k in seen && BracketKey(k).Some?) &&
    SubsOf(seen, dists) && ValuesOf(m, seen, dists)
  }

  /** The keys of `dists` are exactly the `sub`s of the keys in `seen`. */
  ghost predicate SubsOf(seen: set<string>, dists: map<string, string>) {
    forall sub :: sub in dists <==> exists k :: k in seen && BracketKey(k) == Some(sub)
  }

  /** Each entry of `dists` is the first value of some key in `seen` carrying that `sub`. */
  ghost predicate ValuesOf(m: map<string, seq<string>>, seen: set<string>, dists: map<string, string>)
    requires seen <= m.Keys
  {
    forall sub :: sub in dists ==>
      exists k :: k in seen && BracketKey(k) == Some(sub) && |m[k]| > 0 && dists[sub] == m[k][0]
  }

  /** Visiting a key that is not bracketed changes nothing. */
  lemma CollectSkip(m: map<string, seq<string>>, seen: set<string>, dists: map<string, string>, exist: bool,
                    k: string)
    requires seen <= m.Keys && k in m && BracketKey(k).None?
    requires Collected(m, seen, dists, exist)
    ensures Collected(m, seen + {k}, dists, exist)
  {
    assert forall q :: q in seen + {k} && BracketKey(q).Some? ==> q in seen;
  }

  /** Visiting a bracketed key with values records its first value under its `sub`. */
  lemma CollectKeep(m: map<string, seq<string>>, seen: set<string>, dists: map<string, string>, exist: bool,
                    k: string, sub: string)
    requires seen <= m.Keys && k in m && BracketKey(k) == Some(sub) && m[k] != []
    requires Collected(m, seen, dists, exist)
    ensures Collected(m, seen + {k}, dists[sub := m[k][0]], true)
  {
    var seen', dists' := seen + {k}, dists[sub := m[k][0]];
    KeepValues(m, seen, dists, k, sub);
    KeepSubs(seen, dists, k, sub, m[k][0]);
    assert k in seen' && BracketKey(k).Some?;
  }

  lemma KeepValues(m: map<string, seq<string>>, seen: set<string>, dists: map<string, string>, k: string, sub: string)
    requires seen <= m.Keys && k in m && BracketKey(k) == Some(sub) && m[k] != []
    requires ValuesOf(m, seen, dists)
    ensures ValuesOf(m, seen + {k}, dists[sub := m[k][0]])
  {
    var seen', dists' := seen + {k}, dists[sub := m[k][0]];
    forall s | s in dists'
      ensures exists q :: q in seen' && BracketKey(q) == Some(s) && |m[q]| > 0 && dists'[s] == m[q][0]
    {
      if s != sub {
        var q :| q in seen && BracketKey(q) == Some(s) && |m[q]| > 0 && dists[s] == m[q][0];
        assert q in seen';
      } else {
        assert k in seen';
      }
    }
  }

  lemma KeepSubs(seen: set<string>, dists: map<string, string>, k: string, sub: string, v: string)
    requires BracketKey(k) == Some(sub)
    requires SubsOf(seen, dists)
    ensures SubsOf(seen + {k}, dists[sub := v])
  {
    var seen', dists' := seen + {k}, dists[sub := v];
    forall s ensures s in dists' <==> exists q :: q in seen' && BracketKey(q) == Some(s) {
      if s == sub {
        assert k in seen' && BracketKey(k) == Some(s);
      } else if s in dists {
        var q :| q in seen && BracketKey(q) == Some(s);
        assert q in seen';
      } else {
        assert forall q :: q in seen' && BracketKey(q) == Some(s) ==> q in seen;
      }
    }
  }

  /** What `get` may return for the form map `m` when it does not panic. */
  ghost predicate FormResult(m: map<string, seq<string>>, dists: map<string, string>, exist: bool) {
    Collected(m, m.Keys, dists, exist)
  }

  const EmptyValuesMessage: string := "runtime error: index out of range [0] with length 0"

  /** `get` walks the form map in an order it does not choose, collecting the
      bracketed keys; which value a `sub` shared by several keys ends up with
      depends on that order.  Taking the first value of a bracketed key with
      no values is an index-out-of-range panic. */
  method FormGet(m: map<string, seq<string>>, key: string) returns (r: Outcome<(map<string, string>, bool)>)
    ensures r.Panic? <==> exists k :: k in m && BracketKey(k).Some? && m[k] == []
    ensures r.Panic? ==> r.message == EmptyValuesMessage
    ensures r.Ok? ==> FormResult(m, r.value.0, r.value.1)
  {
    var dists: map<string, string> := map[];
    var exist := false;
    var rest := m.Keys;
    ghost var seen: set<string> := {};
    while rest != {}
      invariant seen <= m.Keys && rest <= m.Keys
      invariant forall q :: q in m ==> (q in seen <==> q !in rest)
      invariant Collected(m, seen, dists, exist)
      invariant forall k :: k in seen && BracketKey(k).Some? ==> m[k] != []
      decreases |rest|
    {
      var k :| k in rest;
      var sub := BracketKey(k);
      if sub.Some? && m[k] == [] {
        return Panic(EmptyValuesMessage);
      }
      if sub.None? {
        CollectSkip(m, seen, dists, exist, k);
      } else {
        CollectKeep(m, seen, dists, exist, k, sub.value);
        exist := true;
        dists := dists[sub.value := m[k][0]];
      }
      rest := rest - {k};
      seen := seen + {k};
    }
    assert seen == m.Keys;
    return Ok((dists, exist));
  }
}
