/** The metadata fields of src/field.c: `key=value` arguments kept in an ordered set with a capacity. */
module Fields {
  import opened Bytes

  const EQUALS: byte := 61
  const MAX_KEY: nat := 32
  const MAX_VAL: nat := 512

  datatype Field = Field(key: Text, val: Text)

  datatype Error = InvalidKey | InvalidValue | TooManyFields

  datatype Parsed = Good(field: Field) | Bad(error: Error)

  // ---------------------------------------------------------------- parsing one argument

  predicate IsKeyByte(c: byte) {
    97 <= c <= 122 || 65 <= c <= 90 || 48 <= c <= 57 || c == 45 || c == 95
  }

  predicate IsKey(key: Text) {
    forall i :: 0 <= i < |key| ==> IsKeyByte(key[i])
  }

  predicate IsField(f: Field) {
    0 < |f.key| <= MAX_KEY && IsKey(f.key) && 0 < |f.val| <= MAX_VAL
  }

  method IsValidKey(key: Text) returns (valid: bool)
    ensures valid <==> IsKey(key)
  {
    var i := 0;
    while i < |key|
      invariant 0 <= i <= |key|
      invariant forall k :: 0 <= k < i ==> IsKeyByte(key[k])
    {
      if !IsKeyByte(key[i]) {
        return false;
      }
      i := i + 1;
    }
    return true;
  }

  /** The checks in the source's order, so that the first failing one names the error. */
  function Parse(kv: Text): Parsed {
    var eq := Find(kv, EQUALS, 0);
    if eq == |kv| || eq == 0 then Bad(InvalidKey)
    else
      var valLen := |kv| - eq - 1;
      if eq > MAX_KEY then Bad(InvalidKey)
      else if valLen == 0 || valLen > MAX_VAL then Bad(InvalidValue)
      else if !IsKey(kv[..eq]) then Bad(InvalidKey)
      else Good(Field(kv[..eq], kv[eq + 1..]))
  }

  /** An argument is accepted as a field exactly when it is that field's key, `=` and value. */
  lemma ParseExact(kv: Text, f: Field)
    ensures Parse(kv) == Good(f) <==> kv == f.key + [EQUALS] + f.val && IsField(f)
  {
    var eq := Find(kv, EQUALS, 0);
    if Parse(kv) == Good(f) {
      assert kv == kv[..eq] + [EQUALS] + kv[eq + 1..];
    }
    if kv == f.key + [EQUALS] + f.val && IsField(f) {
      var n := |f.key|;
      assert kv[n] == EQUALS && kv[..n] == f.key && kv[n + 1..] == f.val;
      assert EQUALS !in kv[0..n];
      FindIs(kv, EQUALS, 0, n);
    }
  }

  /** The bytes of keys, and the limits. */
  lemma KeyBytes(c: byte)
    ensures IsKeyByte(c) <==>
      'a' as int <= c <= 'z' as int || 'A' as int <= c <= 'Z' as int || '0' as int <= c <= '9' as int
      || c == '-' as int || c == '_' as int
    ensures EQUALS == '=' as int && MAX_KEY == 32 && MAX_VAL == 512
  {
  }

  /** Which error a refused argument gets: that of its value only if its key has a legal length. */
  lemma RefusedExactly(key: Text, val: Text)
    requires EQUALS !in key
    ensures var r := Parse(key + [EQUALS] + val);
      && (r == Bad(InvalidValue) <==> 0 < |key| <= 32 && (|val| == 0 || |val| > 512))
      && (r == Bad(InvalidKey) <==>
            |key| == 0 || |key| > 32 || (0 < |val| <= 512 && exists i :: 0 <= i < |key| && !IsKeyByte(key[i])))
      && (r.Good? ==> r == Good(Field(key, val)))
  {
    var kv, n := key + [EQUALS] + val, |key|;
    assert kv[n] == EQUALS && kv[..n] == key && kv[n + 1..] == val && kv[0..n] == key;
    FindIs(kv, EQUALS, 0, n);
  }

  lemma NoEqualsIsInvalidKey(kv: Text)
    requires EQUALS !in kv
    ensures Parse(kv) == Bad(InvalidKey)
  {
    assert forall i :: 0 <= i < |kv| ==> kv[i] != EQUALS;
  }

  method CreateField(kv: Text) returns (r: Parsed)
    ensures r == Parse(kv)
  {
    var eq := Find(kv, EQUALS, 0);
    if eq == |kv| || eq == 0 {
      return Bad(InvalidKey);
    }
    var valLen := |kv| - eq - 1;
    if eq == 0 || eq > MAX_KEY {
      return Bad(InvalidKey);
    }
    if valLen == 0 || valLen > MAX_VAL {
      return Bad(InvalidValue);
    }
    var valid := IsValidKey(kv[..eq]);
    if !valid {
      return Bad(InvalidKey);
    }
    return Good(Field(kv[..eq], kv[eq + 1..]));
  }

  // ---------------------------------------------------------------- the set as a value

  /** The first position of a key, or the length. */
  function Position(fields: seq<Field>, key: Text): (k: nat)
    ensures k <= |fields|
    ensures k < |fields| ==> fields[k].key == key
    ensures forall i :: 0 <= i < k ==> fields[i].key != key
  {
    if fields == [] then 0
    else
      var k := Position(fields[..|fields| - 1], key);
      if k < |fields| - 1 || fields[k].key == key then k else |fields|
  }

  function Put(fields: seq<Field>, f: Field): seq<Field> {
    var k := Position(fields, f.key);
    if k < |fields| then fields[k := f] else fields + [f]
  }

  datatype Added = Added(fields: seq<Field>, error: seq<Error>)

  /** One add: a full set rejects everything, even a new value for a key it has. */
  function AddOne(cap: nat, fields: seq<Field>, kv: Text): Added {
    if |fields| == cap then Added(fields, [TooManyFields])
    else
      match Parse(kv)
      case Bad(e) => Added(fields, [e])
      case Good(f) => Added(Put(fields, f), [])
  }

  function AddAll(cap: nat, kvs: seq<Text>): seq<Field> {
    if kvs == [] then [] else AddOne(cap, AddAll(cap, kvs[..|kvs| - 1]), kvs[|kvs| - 1]).fields
  }

  // ---------------------------------------------------------------- an insertion-ordered map

  /** The fields among some arguments, in order. */
  function ValidFields(kvs: seq<Text>): seq<Field> {
    if kvs == [] then []
    else
      ValidFields(kvs[..|kvs| - 1]) +
      match Parse(kvs[|kvs| - 1]) { case Good(f) => [f] case Bad(_) => [] }
  }

  /** The distinct keys in the order of their first occurrence. */
  function FirstKeys(fs: seq<Field>): seq<Text> {
    if fs == [] then []
    else
      var keys, key := FirstKeys(fs[..|fs| - 1]), fs[|fs| - 1].key;
      if key in keys then keys else keys + [key]
  }

  /** The last value given to each key. */
  function LastValues(fs: seq<Field>): map<Text, Text> {
    if fs == [] then map[] else LastValues(fs[..|fs| - 1])[fs[|fs| - 1].key := fs[|fs| - 1].val]
  }

  function Keys(fields: seq<Field>): (keys: seq<Text>)
    ensures |keys| == |fields|
    ensures forall i :: 0 <= i < |fields| ==> keys[i] == fields[i].key
  {
    seq(|fields|, i requires 0 <= i < |fields| => fields[i].key)
  }

  ghost predicate IsOrderedMap(fields: seq<Field>, fs: seq<Field>) {
    && Keys(fields) == FirstKeys(fs)
    && forall i :: 0 <= i < |fields| ==>
         fields[i].key in LastValues(fs) && fields[i].val == LastValues(fs)[fields[i].key]
  }

  ghost predicate Distinct(fields: seq<Field>) {
    forall i, j :: 0 <= i < j < |fields| ==> fields[i].key != fields[j].key
  }

  lemma PutKeepsOrder(fields: seq<Field>, fs: seq<Field>, f: Field)
    requires IsOrderedMap(fields, fs) && Distinct(fields)
    ensures IsOrderedMap(Put(fields, f), fs + [f]) && Distinct(Put(fields, f))
  {
    var k := Position(fields, f.key);
    assert (fs + [f])[..|fs|] == fs;
    if k < |fields| {
      assert Keys(fields)[k] == f.key;
      assert Keys(fields[k := f]) == Keys(fields);
    } else {
      assert f.key !in Keys(fields);
      assert Keys(fields + [f]) == Keys(fields) + [f.key];
    }
  }

  /** How many leading arguments were considered: all of them, or those before the set was full. */
  function Considered(cap: nat, kvs: seq<Text>): (n: nat)
    ensures n <= |kvs|
  {
    if kvs == [] then 0
    else
      var init := kvs[..|kvs| - 1];
      var n := Considered(cap, init);
      if |FirstKeys(ValidFields(init[..n]))| == cap then n else |kvs|
  }

  ghost predicate Holds(cap: nat, fields: seq<Field>, kvs: seq<Text>) {
    && IsOrderedMap(fields, ValidFields(kvs[..Considered(cap, kvs)]))
    && Distinct(fields) && |fields| <= cap
    && (|fields| < cap ==> Considered(cap, kvs) == |kvs|)
  }

  lemma ConsideredNext(cap: nat, kvs: seq<Text>, kv: Text)
    ensures Considered(cap, kvs + [kv]) ==
      if |FirstKeys(ValidFields(kvs[..Considered(cap, kvs)]))| == cap then Considered(cap, kvs) else |kvs| + 1
  {
    assert (kvs + [kv])[..|kvs|] == kvs;
  }

  lemma ValidFieldsNext(kvs: seq<Text>, kv: Text)
    ensures ValidFields(kvs + [kv]) ==
      ValidFields(kvs) + match Parse(kv) { case Good(f) => [f] case Bad(_) => [] }
  {
    assert (kvs + [kv])[..|kvs|] == kvs;
  }

  /** A full set considers no further argument. */
  lemma AddToFull(cap: nat, fields: seq<Field>, kvs: seq<Text>, kv: Text)
    requires Holds(cap, fields, kvs) && |fields| == cap
    ensures Holds(cap, fields, kvs + [kv])
  {
    ConsideredNext(cap, kvs, kv);
    var n := Considered(cap, kvs);
    assert (kvs + [kv])[..n] == kvs[..n];
    assert |FirstKeys(ValidFields(kvs[..n]))| == |Keys(fields)|;
  }

  lemma AddToOpen(cap: nat, fields: seq<Field>, kvs: seq<Text>, kv: Text)
    requires Holds(cap, fields, kvs) && |fields| < cap
    ensures Holds(cap, AddOne(cap, fields, kv).fields, kvs + [kv])
  {
    ConsideredNext(cap, kvs, kv);
    var all := kvs + [kv];
    assert kvs[..|kvs|] == kvs && all[..|all|] == all;
    assert |FirstKeys(ValidFields(kvs))| == |Keys(fields)|;
    ValidFieldsNext(kvs, kv);
    if Parse(kv).Good? {
      PutKeepsOrder(fields, ValidFields(kvs), Parse(kv).field);
    } else {
      assert ValidFields(kvs) + [] == ValidFields(kvs);
    }
  }

  lemma AddOneHolds(cap: nat, fields: seq<Field>, kvs: seq<Text>, kv: Text)
    requires Holds(cap, fields, kvs)
    ensures Holds(cap, AddOne(cap, fields, kv).fields, kvs + [kv])
  {
    if |fields| < cap {
      AddToOpen(cap, fields, kvs, kv);
    } else {
      AddToFull(cap, fields, kvs, kv);
    }
  }

  lemma {:induction false} SetHolds(cap: nat, kvs: seq<Text>)
    ensures Holds(cap, AddAll(cap, kvs), kvs)
  {
    if kvs == [] {
      assert Keys([]) == [];
    } else {
      var init := kvs[..|kvs| - 1];
      SetHolds(cap, init);
      AddOneHolds(cap, AddAll(cap, init), init, kvs[|kvs| - 1]);
      assert init + [kvs[|kvs| - 1]] == kvs;
    }
  }

  /**
   After any adds the set is the insertion-ordered map of the considered arguments that are fields:
   keys distinct, in order of first insertion, each with the last value given before the set was full.
   */
  lemma {:induction false} FieldSetMeaning(cap: nat, kvs: seq<Text>)
    ensures var fields := AddAll(cap, kvs);
      && IsOrderedMap(fields, ValidFields(kvs[..Considered(cap, kvs)]))
      && Distinct(fields) && |fields| <= cap
      && (|fields| < cap ==> Considered(cap, kvs) == |kvs|)
  {
    SetHolds(cap, kvs);
  }

  lemma {:induction false} FieldsAreValid(cap: nat, kvs: seq<Text>)
    ensures forall i :: 0 <= i < |AddAll(cap, kvs)| ==> IsField(AddAll(cap, kvs)[i])
  {
    if kvs != [] {
      FieldsAreValid(cap, kvs[..|kvs| - 1]);
    }
  }

  /** Once full, every further add is refused and changes nothing. */
  lemma {:induction false} FullSetIsFinal(cap: nat, kvs: seq<Text>, more: seq<Text>)
    requires |AddAll(cap, kvs)| == cap
    ensures AddAll(cap, kvs + more) == AddAll(cap, kvs)
    ensures forall kv :: AddOne(cap, AddAll(cap, kvs + more), kv).error == [TooManyFields]
  {
    if more == [] {
      assert kvs + more == kvs;
    } else {
      assert (kvs + more)[..|kvs + more| - 1] == kvs + more[..|more| - 1];
      FullSetIsFinal(cap, kvs, more[..|more| - 1]);
    }
  }

  // ---------------------------------------------------------------- a list of arguments

  /** The error of the first argument that is refused, which ends the program; none if all are accepted. */
  function FirstError(cap: nat, kvs: seq<Text>): seq<Error> {
    if kvs == [] then []
    else
      var init := kvs[..|kvs| - 1];
      if FirstError(cap, init) != [] then FirstError(cap, init)
      else AddOne(cap, AddAll(cap, init), kvs[|kvs| - 1]).error
  }

  /** The error is that of the first argument that is refused: the set is full before it, or it is no field. */
  lemma {:induction false} FirstErrorIs(cap: nat, kvs: seq<Text>, i: nat)
    requires i < |kvs| && FirstError(cap, kvs[..i]) == []
    requires |AddAll(cap, kvs[..i])| == cap || Parse(kvs[i]).Bad?
    ensures FirstError(cap, kvs) == [if |AddAll(cap, kvs[..i])| == cap then TooManyFields else Parse(kvs[i]).error]
  {
    if i == |kvs| - 1 {
      assert kvs[..i] == kvs[..|kvs| - 1];
    } else {
      var init := kvs[..|kvs| - 1];
      assert init[..i] == kvs[..i] && init[i] == kvs[i];
      FirstErrorIs(cap, init, i);
    }
  }

  /** Argument `i` is a field, and the fields before it leave room in the set. */
  predicate Acceptable(cap: nat, kvs: seq<Text>, i: nat)
    requires i < |kvs|
  {
    Parse(kvs[i]).Good? && |FirstKeys(ValidFields(kvs[..i]))| != cap
  }

  ghost predicate AllAcceptable(cap: nat, kvs: seq<Text>) {
    forall i :: 0 <= i < |kvs| ==> Acceptable(cap, kvs, i)
  }

  lemma AcceptableNext(cap: nat, kvs: seq<Text>, kv: Text)
    ensures AllAcceptable(cap, kvs + [kv]) <==>
      AllAcceptable(cap, kvs) && Parse(kv).Good? && |FirstKeys(ValidFields(kvs))| != cap
  {
    var all := kvs + [kv];
    forall i | 0 <= i < |kvs|
      ensures Acceptable(cap, all, i) == Acceptable(cap, kvs, i)
    {
      assert all[..i] == kvs[..i] && all[i] == kvs[i];
    }
    assert all[..|kvs|] == kvs && all[|kvs|] == kv;
    assert Acceptable(cap, all, |kvs|) <==> Parse(kv).Good? && |FirstKeys(ValidFields(kvs))| != cap;
  }

  /** The set is the insertion-ordered map of all the arguments. */
  ghost predicate HoldsAll(fields: seq<Field>, kvs: seq<Text>) {
    IsOrderedMap(fields, ValidFields(kvs)) && Distinct(fields)
  }

  lemma AddAcceptable(cap: nat, fields: seq<Field>, kvs: seq<Text>, kv: Text)
    requires HoldsAll(fields, kvs)
    ensures AddOne(cap, fields, kv).error == [] <==> Parse(kv).Good? && |FirstKeys(ValidFields(kvs))| != cap
    ensures AddOne(cap, fields, kv).error == [] ==> HoldsAll(AddOne(cap, fields, kv).fields, kvs + [kv])
  {
    assert |FirstKeys(ValidFields(kvs))| == |Keys(fields)|;
    if |fields| != cap && Parse(kv).Good? {
      PutKeepsOrder(fields, ValidFields(kvs), Parse(kv).field);
      ValidFieldsNext(kvs, kv);
    }
  }

  /**
   The arguments are accepted if and only if each is a field and comes before the set is full, and
   then the set is the insertion-ordered map of all of them.
   */
  lemma {:induction false} AcceptedExactly(cap: nat, kvs: seq<Text>)
    ensures FirstError(cap, kvs) == [] <==> AllAcceptable(cap, kvs)
    ensures FirstError(cap, kvs) == [] ==> HoldsAll(AddAll(cap, kvs), kvs)
  {
    if kvs == [] {
      assert Keys([]) == [];
    } else {
      var init, kv := kvs[..|kvs| - 1], kvs[|kvs| - 1];
      assert init + [kv] == kvs;
      AcceptedExactly(cap, init);
      AcceptableNext(cap, init, kv);
      if FirstError(cap, init) == [] {
        AddAcceptable(cap, AddAll(cap, init), init, kv);
      }
    }
  }

  // ---------------------------------------------------------------- the set in the heap

  class FieldSet {
    const cap: nat
    var len: nat
    const fields: array<Field>

    ghost predicate Valid()
      reads this
    {
      len <= cap == fields.Length
    }

    ghost function Contents(): seq<Field>
      requires Valid()
      reads this, fields
    {
      fields[..len]
    }

    constructor (cap: nat)
      ensures Valid() && this.cap == cap && Contents() == AddAll(cap, []) && fresh(fields)
    {
      this.cap := cap;
      len := 0;
      fields := new Field[cap](_ => Field([], []));
    }

    method Add(kv: Text) returns (error: seq<Error>)
      requires Valid()
      modifies this, fields
      ensures Valid()
      ensures Added(Contents(), error) == AddOne(cap, old(Contents()), kv)
    {
      if len == cap {
        return [TooManyFields];
      }
      var parsed := CreateField(kv);
      if parsed.Bad? {
        return [parsed.error];
      }
      var f := parsed.field;
      for i := 0 to len
        invariant fields[..] == old(fields[..])
        invariant forall k :: 0 <= k < i ==> fields[k].key != f.key
      {
        if fields[i].key == f.key {
          fields[i] := f;
          assert Contents() == old(Contents())[i := f];
          return [];
        }
      }
      fields[len] := f;
      len := len + 1;
      assert Contents() == old(Contents()) + [f];
      return [];
    }
  }
}
