/** A prepared statement bound to its parameter values: how a bound statement inherits
    the prepared statement's settings, how the values given to it are checked against
    the parameter metadata, and how its routing key is derived from the partition-key
    values. The serializer, RoutingKey.Compose and Utils.GetValues are not part of this
    model: they are represented by function values that the caller supplies. */
module BoundStatements {
  import opened Wrappers

  type Bytes = seq<bv8>

  /** The raw bytes token-aware routing hashes to find the replicas of a statement. */
  datatype RoutingKey = RoutingKey(rawRoutingKey: Bytes)

  /** RoutingKey.Compose: builds one routing key out of its components. */
  type Composer = seq<RoutingKey> -> RoutingKey

  /** Utils.GetValues: reads the named properties of a parameter object, in order. */
  type ValueExtractor = (seq<string>, Value) -> seq<Value>

  /** A bind value: the driver's Unset marker, a null reference, or a client object
      (known only by an opaque handle; the serializer decides what it encodes to). */
  datatype Value = Unset | Null | Obj(handle: int)

  /** The metadata of one bind parameter. */
  datatype Column = Column(name: string, typeCode: nat)

  /** The parameter metadata a prepared statement carries. */
  datatype RowSetMetadata = RowSetMetadata(keyspace: Option<string>, columns: Option<seq<Column>>)

  datatype ConsistencyLevel =
    Any | One | Two | Three | Quorum | All | LocalQuorum | EachQuorum | Serial | LocalSerial | LocalOne

  /** The part of a prepared statement a bound statement reads. */
  datatype PreparedStatement = PreparedStatement(
    routingKey: Option<RoutingKey>,
    keyspace: Option<string>,
    metadata: Option<RowSetMetadata>,
    consistencyLevel: Option<ConsistencyLevel>,
    isIdempotent: Option<bool>)

  /** The serializer's three capabilities used here: the per-column type check, the
      encoding of a value (null for a null value), and whether the negotiated protocol
      version supports unset values. */
  datatype Serializer = Serializer(
    isAssignableFrom: (Column, Value) -> bool,
    serialize: Value -> Option<Bytes>,
    supportsUnset: bool)

  /** The exceptions ValidateValues throws. */
  datatype BindError =
    | DriverInternalError
    | ArgumentError(provided: nat, expected: nat)
    | InvalidTypeError(position: nat, column: Column)
      /** Building the InvalidTypeException message asks a null value for its type,
          which throws a NullReferenceException instead. */
    | NullReferenceError(position: nat)

  /** The prepared statement has a non-empty list of parameter columns. */
  predicate HasParameters(ps: PreparedStatement) {
    ps.metadata.Some? && ps.metadata.value.columns.Some? && |ps.metadata.value.columns.value| > 0
  }

  function Parameters(ps: PreparedStatement): seq<Column>
    requires HasParameters(ps)
  {
    ps.metadata.value.columns.value
  }

  /** Each value is assignable to the parameter column at its own position. */
  predicate AllAssignable(ser: Serializer, columns: seq<Column>, values: seq<Value>)
    requires |values| <= |columns|
  {
    forall i :: 0 <= i < |values| ==> ser.isAssignableFrom(columns[i], values[i])
  }

  /** `padded` is `values` followed by Unset markers up to length n. */
  predicate PaddedWithUnset(padded: seq<Value>, values: seq<Value>, n: nat) {
    && |padded| == n && |values| <= n
    && padded[..|values|] == values
    && forall k :: |values| <= k < n ==> padded[k] == Unset
  }

  /** What validating `values` against the parameters of `ps` with serializer `ser`
      yields: the exception thrown, or the values to bind. */
  ghost predicate ValidationOutcome(ps: PreparedStatement, ser: Option<Serializer>, values: Option<seq<Value>>,
                                    r: Result<Option<seq<Value>>, BindError>)
  {
    // without a serializer nothing can be validated
    && (ser.None? ==> r == Failure(DriverInternalError))
    // a null value array is passed through
    && (ser.Some? && values.None? ==> r == Success(None))
    // without parameter metadata the values are not checked
    && (ser.Some? && values.Some? && !HasParameters(ps) ==> r == Success(values))
    // too many values is reported before any type is checked
    && (ser.Some? && values.Some? && HasParameters(ps) && |values.value| > |Parameters(ps)| ==>
          r == Failure(ArgumentError(|values.value|, |Parameters(ps)|)))
    // otherwise validation succeeds exactly when every value has its column's type
    && (ser.Some? && values.Some? && HasParameters(ps) && |values.value| <= |Parameters(ps)| ==>
          (r.Success? <==> AllAssignable(ser.value, Parameters(ps), values.value)))
    // a failure at this stage names the first value that does not fit: a type error
    // with its column, or, when that value is null, the null dereference of the message
    && (ser.Some? && values.Some? && HasParameters(ps) && |values.value| <= |Parameters(ps)| && r.Failure? ==>
          && (r.error.InvalidTypeError? || r.error.NullReferenceError?)
          && r.error.position < |values.value|
          && !ser.value.isAssignableFrom(Parameters(ps)[r.error.position], values.value[r.error.position])
          && AllAssignable(ser.value, Parameters(ps), values.value[..r.error.position])
          && (r.error.NullReferenceError? <==> values.value[r.error.position] == Null)
          && (r.error.InvalidTypeError? ==> r.error.column == Parameters(ps)[r.error.position]))
    // a short list is padded with Unset when the protocol supports it, else kept as is
    && (r.Success? && ser.Some? && values.Some? && HasParameters(ps) ==>
          && r.value.Some?
          && if |values.value| < |Parameters(ps)| && ser.value.supportsUnset
             then PaddedWithUnset(r.value.value, values.value, |Parameters(ps)|)
             else r.value.value == values.value)
  }

  /** The routing-key components of `values`, when every one of them serializes. */
  function KeysOf(ser: Serializer, values: seq<Value>): seq<RoutingKey>
    requires forall i :: 0 <= i < |values| ==> ser.serialize(values[i]).Some?
  {
    seq(|values|, i requires 0 <= i < |values| => RoutingKey(ser.serialize(values[i]).value))
  }

  /** Serializes each value in turn, giving up at the first one that serializes to null. */
  function SerializeAll(ser: Serializer, values: seq<Value>): (keys: Option<seq<RoutingKey>>)
    ensures keys.Some? <==> forall i :: 0 <= i < |values| ==> ser.serialize(values[i]).Some?
    ensures keys.Some? ==> keys.value == KeysOf(ser, values)
  {
    if values == [] then Some([])
    else match ser.serialize(values[0])
      case None => None
      case Some(bytes) =>
        match SerializeAll(ser, values[1..])
        case None => None
        case Some(rest) => Some([RoutingKey(bytes)] + rest)
  }

  predicate IndexesInRange(indexes: seq<int>, n: nat) {
    forall i :: 0 <= i < |indexes| ==> 0 <= indexes[i] < n
  }

  /** The values at the given positions, in the order of the positions. */
  function Select(values: seq<Value>, indexes: seq<int>): (picked: seq<Value>)
    requires IndexesInRange(indexes, |values|)
  {
    seq(|indexes|, i requires 0 <= i < |indexes| => values[indexes[i]])
  }

  /** The inputs on which CalculateRoutingKey does not throw: the positional indexes
      are in range, a parameter object is given for name-based routing, and there is a
      serializer on the paths that serialize. */
  predicate RoutingKeyComputable(current: Option<RoutingKey>, ser: Option<Serializer>, useNamedParameters: bool,
                                 routingIndexes: Option<seq<int>>, routingNames: Option<seq<string>>,
                                 valuesByPosition: seq<Value>, rawValues: seq<Value>)
  {
    current.None? ==>
      && (routingIndexes.Some? ==> ser.Some? && IndexesInRange(routingIndexes.value, |valuesByPosition|))
      && (routingIndexes.None? && routingNames.Some? && useNamedParameters ==> ser.Some? && |rawValues| > 0)
  }

  /** The routing key a bound statement has after CalculateRoutingKey, given the key
      `current` it had before. */
  function DerivedRoutingKey(current: Option<RoutingKey>, ser: Option<Serializer>, compose: Composer,
                             useNamedParameters: bool, routingIndexes: Option<seq<int>>,
                             routingNames: Option<seq<string>>, valuesByPosition: seq<Value>,
                             rawValues: seq<Value>, getValues: ValueExtractor): (key: Option<RoutingKey>)
    requires RoutingKeyComputable(current, ser, useNamedParameters, routingIndexes, routingNames,
                                  valuesByPosition, rawValues)
    // a key that is already set (by the user or the prepared statement) wins
    ensures current.Some? ==> key == current
    // positional routing: all partition-key values serialize, composed in index order
    ensures current.None? && routingIndexes.Some? ==>
      var picked := Select(valuesByPosition, routingIndexes.value);
      && (key.Some? <==> forall i :: 0 <= i < |picked| ==> ser.value.serialize(picked[i]).Some?)
      && (key.Some? ==> key == Some(compose(KeysOf(ser.value, picked))))
    // name-based routing, only when there are no indexes and named parameters are used
    ensures current.None? && routingIndexes.None? && routingNames.Some? && useNamedParameters ==>
      var extracted := getValues(routingNames.value, rawValues[0]);
      && (|extracted| != |routingNames.value| ==> key.None?)
      && (|extracted| == |routingNames.value| ==>
            && (key.Some? <==> forall i :: 0 <= i < |extracted| ==> ser.value.serialize(extracted[i]).Some?)
            && (key.Some? ==> key == Some(compose(KeysOf(ser.value, extracted)))))
    // with neither, no key is derived
    ensures current.None? && routingIndexes.None? && !(routingNames.Some? && useNamedParameters) ==> key.None?
  {
    if current.Some? then current
    else if routingIndexes.Some? then
      match SerializeAll(ser.value, Select(valuesByPosition, routingIndexes.value))
      case None => None
      case Some(keys) => Some(compose(keys))
    else if routingNames.Some? && useNamedParameters then
      var extracted := getValues(routingNames.value, rawValues[0]);
      if |extracted| != |routingNames.value| then None
      else match SerializeAll(ser.value, extracted)
        case None => None
        case Some(keys) => Some(compose(keys))
    else None
  }

  /** Composing a user-supplied key first makes any later derivation a no-op: the key
      set through SetRoutingKey takes precedence over the partition-key values. */
  lemma {:induction false} UserKeyTakesPrecedence(ser: Option<Serializer>, compose: Composer, components: seq<RoutingKey>,
                                 useNamedParameters: bool, routingIndexes: Option<seq<int>>,
                                 routingNames: Option<seq<string>>, valuesByPosition: seq<Value>,
                                 rawValues: seq<Value>, getValues: ValueExtractor)
    ensures DerivedRoutingKey(Some(compose(components)), ser, compose, useNamedParameters, routingIndexes,
                              routingNames, valuesByPosition, rawValues, getValues)
            == Some(compose(components))
  {
  }

  /** Deriving twice gives the same key as deriving once. */
  lemma {:induction false} DerivationIdempotent(current: Option<RoutingKey>, ser: Option<Serializer>, compose: Composer,
                               useNamedParameters: bool, routingIndexes: Option<seq<int>>,
                               routingNames: Option<seq<string>>, valuesByPosition: seq<Value>,
                               rawValues: seq<Value>, getValues: ValueExtractor)
    requires RoutingKeyComputable(current, ser, useNamedParameters, routingIndexes, routingNames,
                                  valuesByPosition, rawValues)
    ensures var once := DerivedRoutingKey(current, ser, compose, useNamedParameters, routingIndexes, routingNames,
                                          valuesByPosition, rawValues, getValues);
            RoutingKeyComputable(once, ser, useNamedParameters, routingIndexes, routingNames,
                                 valuesByPosition, rawValues)
            && DerivedRoutingKey(once, ser, compose, useNamedParameters, routingIndexes, routingNames,
                                 valuesByPosition, rawValues, getValues) == once
  {
  }

  /** A statement bound to a prepared statement (the Statement base class contributes
      the consistency level, the idempotence flag and the stored values). */
  class BoundStatement {
    const prepared: PreparedStatement
    const serializer: Option<Serializer>
    const keyspace: Option<string>
    var routingKey: Option<RoutingKey>
    var consistencyLevel: Option<ConsistencyLevel>
    var isIdempotent: Option<bool>
    var queryValues: Option<seq<Value>>

    /** BoundStatement(PreparedStatement) when `serializer` is None, and the internal
        BoundStatement(PreparedStatement, ISerializer) otherwise. */
    constructor (statement: PreparedStatement, serializer: Option<Serializer>)
      ensures prepared == statement && this.serializer == serializer
      ensures routingKey == statement.routingKey
      ensures keyspace == if statement.keyspace.Some? then statement.keyspace
                          else if statement.metadata.Some? then statement.metadata.value.keyspace
                          else None
      ensures consistencyLevel == statement.consistencyLevel
      ensures isIdempotent == statement.isIdempotent
      ensures queryValues == None
    {
      prepared := statement;
      this.serializer := serializer;
      routingKey := statement.routingKey;
      keyspace := if statement.keyspace.Some? then statement.keyspace
                  else if statement.metadata.Some? then statement.metadata.value.keyspace
                  else None;
      consistencyLevel := statement.consistencyLevel;
      isIdempotent := None;
      queryValues := None;
      new;
      if statement.isIdempotent.Some? {
        isIdempotent := Some(statement.isIdempotent.value);
      }
    }

    /** Replaces the routing key by the composition of the given components and
        returns this same statement. */
    method SetRoutingKey(components: seq<RoutingKey>, compose: Composer) returns (self: BoundStatement)
      modifies this`routingKey
      ensures routingKey == Some(compose(components))
      ensures self == this
    {
      routingKey := Some(compose(components));
      self := this;
    }

    /** Checks `values` against the parameter metadata and returns the values to bind. */
    method ValidateValues(values: Option<seq<Value>>) returns (r: Result<Option<seq<Value>>, BindError>)
      ensures ValidationOutcome(prepared, serializer, values, r)
    {
      if serializer.None? {
        return Failure(DriverInternalError);
      }
      if values.None? {
        return Success(None);
      }
      if !HasParameters(prepared) {
        return Success(values);
      }
      var ser := serializer.value;
      var vs := values.value;
      var paramsMetadata := Parameters(prepared);
      if |vs| > |paramsMetadata| {
        return Failure(ArgumentError(|vs|, |paramsMetadata|));
      }
      for i := 0 to |vs|
        invariant AllAssignable(ser, paramsMetadata, vs[..i])
      {
        var p := paramsMetadata[i];
        if !ser.isAssignableFrom(p, vs[i]) {
          if vs[i] == Null {
            return Failure(NullReferenceError(i));
          }
          return Failure(InvalidTypeError(i, p));
        }
      }
      assert vs[..|vs|] == vs;
      if |vs| < |paramsMetadata| && ser.supportsUnset {
        var completeValues := new Value[|paramsMetadata|];
        for i := 0 to |vs|
          invariant completeValues[..i] == vs[..i]
        {
          completeValues[i] := vs[i];
        }
        for i := |vs| to |paramsMetadata|
          invariant completeValues[..|vs|] == vs
          invariant forall k :: |vs| <= k < i ==> completeValues[k] == Unset
        {
          completeValues[i] := Unset;
        }
        assert completeValues[..][..|vs|] == completeValues[..|vs|];
        return Success(Some(completeValues[..]));
      }
      return Success(values);
    }

    /** Validates `values` and, when that succeeds, stores the result as the values to
        send; on an exception the stored values are left as they were. */
    method SetValues(values: Option<seq<Value>>) returns (r: Result<Option<seq<Value>>, BindError>)
      modifies this`queryValues
      ensures ValidationOutcome(prepared, serializer, values, r)
      ensures r.Success? ==> queryValues == r.value
      ensures r.Failure? ==> queryValues == old(queryValues)
    {
      r := ValidateValues(values);
      if r.Success? {
        queryValues := r.value;
      }
    }

    /** Derives the routing key from the partition-key values, by position when
        `routingIndexes` is given, else by name from the parameter object rawValues[0]. */
    method CalculateRoutingKey(useNamedParameters: bool, routingIndexes: Option<seq<int>>,
                               routingNames: Option<seq<string>>, valuesByPosition: seq<Value>,
                               rawValues: seq<Value>, getValues: ValueExtractor, compose: Composer)
      requires RoutingKeyComputable(routingKey, serializer, useNamedParameters, routingIndexes, routingNames,
                                    valuesByPosition, rawValues)
      modifies this`routingKey
      ensures routingKey == DerivedRoutingKey(old(routingKey), serializer, compose, useNamedParameters,
                                              routingIndexes, routingNames, valuesByPosition, rawValues, getValues)
    {
      if routingKey.Some? {
        // the routing key was specified by the user
        return;
      }
      if routingIndexes.Some? {
        var indexes := routingIndexes.value;
        var ser := serializer.value;
        ghost var picked := Select(valuesByPosition, indexes);
        var keys := new RoutingKey[|indexes|];
        for i := 0 to |indexes|
          modifies keys
          invariant forall j :: 0 <= j < i ==> ser.serialize(picked[j]).Some?
          invariant forall j :: 0 <= j < i ==> keys[j] == RoutingKey(ser.serialize(picked[j]).value)
        {
          var index := indexes[i];
          var key := ser.serialize(valuesByPosition[index]);
          assert picked[i] == valuesByPosition[index];
          if key.None? {
            // a partition-key value cannot be null: leave the key unset
            return;
          }
          keys[i] := RoutingKey(key.value);
        }
        assert keys[..] == KeysOf(ser, picked);
        var _ := SetRoutingKey(keys[..], compose);
        return;
      }
      if routingNames.Some? && useNamedParameters {
        var names := routingNames.value;
        var ser := serializer.value;
        var keys := new RoutingKey[|names|];
        var routingValues := getValues(names, rawValues[0]);
        if |routingValues| != |keys[..]| {
          // the routing names are not valid
          return;
        }
        for i := 0 to |routingValues|
          modifies keys
          invariant forall j :: 0 <= j < i ==> ser.serialize(routingValues[j]).Some?
          invariant forall j :: 0 <= j < i ==> keys[j] == RoutingKey(ser.serialize(routingValues[j]).value)
        {
          var key := ser.serialize(routingValues[i]);
          if key.None? {
            return;
          }
          keys[i] := RoutingKey(key.value);
        }
        assert keys[..] == KeysOf(ser, routingValues);
        var _ := SetRoutingKey(keys[..], compose);
      }
    }
  }
}
