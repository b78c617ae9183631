/** The per-request context that middlewares use to hand data to each other
    (`RequestContext` in src/common/context.rs). Rust stores `Box<dyn Any>` values and reads them
    back with a downcast to a requested type; here every stored value carries its type as a
    tag, and a read names the type it expects. */
module Context {
  import opened Wrappers
  import opened Text

  /** The types a context value can have in this model. */
  datatype ValueType = IntType | StringType | BoolType | BytesType

  /** A stored value together with its run-time type. */
  datatype TaggedValue =
    | IntValue(i: int)
    | StringValue(s: string)
    | BoolValue(b: bool)
    | BytesValue(bytes: seq<byte>)

  function TypeOf(v: TaggedValue): ValueType
  {
    match v
    case IntValue(_) => IntType
    case StringValue(_) => StringType
    case BoolValue(_) => BoolType
    case BytesValue(_) => BytesType
  }

  /** `downcast_ref::<T>()`: the value when it has the requested type. */
  function Downcast(v: TaggedValue, ty: ValueType): (r: Option<TaggedValue>)
    ensures r.Some? <==> TypeOf(v) == ty
    ensures r.Some? ==> r.value == v
  {
    if TypeOf(v) == ty then Some(v) else None
  }

  /** `metadata.get(key).and_then(downcast_ref)` on a context whose map is `m`. */
  function Lookup(m: map<string, TaggedValue>, key: string, ty: ValueType): (r: Option<TaggedValue>)
    ensures r.Some? <==> key in m && TypeOf(m[key]) == ty
    ensures r.Some? ==> r.value == m[key]
  {
    if key in m then Downcast(m[key], ty) else None
  }

  /** The three operations that change a context. */
  datatype ContextOp = SetOp(key: string, value: TaggedValue) | RemoveOp(key: string) | ClearOp

  /** The map after one operation. */
  function Step(m: map<string, TaggedValue>, op: ContextOp): map<string, TaggedValue>
  {
    match op
    case SetOp(k, v) => m[k := v]
    case RemoveOp(k) => m - {k}
    case ClearOp => map[]
  }

  /** The map after a sequence of operations, applied in order. */
  function Replay(m: map<string, TaggedValue>, ops: seq<ContextOp>): map<string, TaggedValue>
  {
    if ops == [] then m else Step(Replay(m, ops[..|ops| - 1]), ops[|ops| - 1])
  }

  predicate Touches(op: ContextOp, key: string)
  {
    op.ClearOp? || op.key == key
  }

  /** The last operation in `ops` that affects `key`, if any. */
  function LastTouch(ops: seq<ContextOp>, key: string): (r: Option<ContextOp>)
    ensures r.Some? ==> r.value in ops && Touches(r.value, key)
    ensures r.None? ==> forall i | 0 <= i < |ops| :: !Touches(ops[i], key)
  {
    if ops == [] then None
    else if Touches(ops[|ops| - 1], key) then Some(ops[|ops| - 1])
    else LastTouch(ops[..|ops| - 1], key)
  }

  /** After any sequence of `set`, `remove` and `clear`, a key is present exactly when the last
      operation touching it was a `set` (or, if none touched it, when it was present before),
      and its value is the one that `set` stored. */
  lemma {:induction false} ReplayLastTouch(m: map<string, TaggedValue>, ops: seq<ContextOp>, key: string)
    ensures LastTouch(ops, key).None? ==>
              (key in Replay(m, ops) <==> key in m) && (key in m ==> Replay(m, ops)[key] == m[key])
    ensures LastTouch(ops, key).Some? ==>
              (key in Replay(m, ops) <==> LastTouch(ops, key).value.SetOp?)
    ensures LastTouch(ops, key).Some? && LastTouch(ops, key).value.SetOp? ==>
              Replay(m, ops)[key] == LastTouch(ops, key).value.value
  {
    if ops != [] {
      ReplayLastTouch(m, ops[..|ops| - 1], key);
    }
  }

  class RequestContext {
    var metadata: map<string, TaggedValue>

    /** `RequestContext::new()`: an empty context. */
    constructor ()
      ensures metadata == map[]
    {
      metadata := map[];
    }

    /** `set`: binds `key` to `value`, replacing any earlier value of any type. */
    method Set(key: string, value: TaggedValue)
      modifies this
      ensures metadata == Step(old(metadata), SetOp(key, value))
      ensures Get(key, TypeOf(value)) == Some(value)
      ensures forall k | k != key && k in old(metadata) :: k in metadata && metadata[k] == old(metadata[k])
    {
      metadata := metadata[key := value];
    }

    /** `get::<T>`: the value under `key` if there is one and it has type `ty`. */
    function Get(key: string, ty: ValueType): (r: Option<TaggedValue>)
      reads this
      ensures r.Some? <==> key in metadata && TypeOf(metadata[key]) == ty
      ensures r.Some? ==> r.value == metadata[key] && TypeOf(r.value) == ty
    {
      Lookup(metadata, key, ty)
    }

    /** `remove::<T>`: deletes the entry under `key` whatever its type, and returns the
        removed value only when it has type `ty`. */
    method Remove(key: string, ty: ValueType) returns (r: Option<TaggedValue>)
      modifies this
      ensures metadata == Step(old(metadata), RemoveOp(key))
      ensures r == Lookup(old(metadata), key, ty)
      ensures key !in metadata && !ContainsKey(key)
    {
      r := Lookup(metadata, key, ty);
      metadata := metadata - {key};
    }

    /** `contains_key`: whether any value is stored under `key`. */
    function ContainsKey(key: string): (r: bool)
      reads this
      ensures r <==> exists ty :: Get(key, ty).Some?
    {
      assert key in metadata ==> Get(key, TypeOf(metadata[key])).Some?;
      key in metadata
    }

    /** `clear`: removes every entry. */
    method Clear()
      modifies this
      ensures metadata == Step(old(metadata), ClearOp)
      ensures IsEmpty()
    {
      metadata := map[];
    }

    /** `is_empty`: no key is present. */
    function IsEmpty(): (r: bool)
      reads this
      ensures r <==> forall k :: !ContainsKey(k)
    {
      if metadata == map[] then true
      else
        var k :| k in metadata;
        assert ContainsKey(k);
        false
    }

    /** `clone`: the stored values cannot be cloned, so the copy is a fresh empty context. */
    method Clone() returns (c: RequestContext)
      ensures fresh(c)
      ensures c.IsEmpty()
      ensures metadata == old(metadata)
    {
      c := new RequestContext();
    }
  }
}
