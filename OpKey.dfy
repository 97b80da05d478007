/**
 * The registry key builder (OpKeyBuilder). A key is the op name, then the
 * device, then, for each constraint name in the fixed order `TypeOrder`, the
 * name, an underscore and the constrained data type.
 */
module OpKey {
  import opened Outcomes
  import opened MaceTypes

  /** The constraint names a key mentions, in order; only "T" is recognised. */
  const TypeOrder: seq<string> := ["T"]

  /**
   * The builder's state. `deviceType` is None until `Device` has been called
   * (the C++ field is left uninitialised by the constructor).
   */
  datatype OpKeyBuilder = OpKeyBuilder(
    opName: string,
    deviceType: Option<DeviceType>,
    typeConstraint: map<string, DataType>)
  {
    function Device(device: DeviceType): OpKeyBuilder {
      this.(deviceType := Some(device))
    }

    function TypeConstraint(attrName: string, allowed: DataType): OpKeyBuilder {
      this.(typeConstraint := typeConstraint[attrName := allowed])
    }
  }

  function NewBuilder(opName: string): OpKeyBuilder {
    OpKeyBuilder(opName, None, map[])
  }

  /**
   * The data type a constraint map holds for `name`; like `std::map::operator[]`
   * it yields the value-initialised DataType when the name is absent.
   */
  function ConstraintOf(constraints: map<string, DataType>, name: string): DataType {
    if name in constraints then constraints[name] else DT_INVALID
  }

  /** The part of a key written for one constraint name: the name, an underscore and its data type. */
  function ConstraintPart(name: string, constraints: map<string, DataType>): string {
    name + "_" + Decimal(ConstraintOf(constraints, name))
  }

  /** The part of a key written for the constraint names in `order`. */
  function ConstraintText(order: seq<string>, constraints: map<string, DataType>): string
    decreases |order|
  {
    if |order| == 0 then ""
    else
      var name := order[|order| - 1];
      ConstraintText(order[..|order| - 1], constraints) + ConstraintPart(name, constraints)
  }

  /** The key a builder with a device produces. */
  function KeyOf(b: OpKeyBuilder): string
    requires b.deviceType.Some?
  {
    b.opName + Decimal(b.deviceType.value) + ConstraintText(TypeOrder, b.typeConstraint)
  }

  /** OpKeyBuilder::Build: appends the op name, the device and each constraint of `TypeOrder`. */
  method Build(b: OpKeyBuilder) returns (key: string)
    requires b.deviceType.Some?
    ensures key == KeyOf(b)
  {
    var head := b.opName + Decimal(b.deviceType.value);
    key := AppendConstraints(head, TypeOrder, b.typeConstraint);
  }

  /** The loop of Build: appends the part of each name of `order`, in order, to `head`. */
  method AppendConstraints(head: string, order: seq<string>, constraints: map<string, DataType>) returns (key: string)
    ensures key == head + ConstraintText(order, constraints)
  {
    key := head;
    for i := 0 to |order|
      invariant key == head + ConstraintText(order[..i], constraints)
    {
      AppendStep(head, key, order, i, constraints);
      key := key + ConstraintPart(order[i], constraints);
    }
    assert order[..|order|] == order;
  }

  /** Appending the part of name `i` to a key covering names 0..i-1 covers names 0..i. */
  lemma AppendStep(head: string, key: string, order: seq<string>, i: nat, constraints: map<string, DataType>)
    requires i < |order|
    requires key == head + ConstraintText(order[..i], constraints)
    ensures key + ConstraintPart(order[i], constraints) == head + ConstraintText(order[..i + 1], constraints)
  {
    assert order[..i + 1][..i] == order[..i];
  }

  /**
   * The key used both when registering and when looking up an operator:
   * OpKeyBuilder(op).Device(device).TypeConstraint("T", dt).Build().
   */
  function Key(opName: string, device: DeviceType, dt: DataType): string {
    KeyOf(NewBuilder(opName).Device(device).TypeConstraint("T", dt))
  }

  /** The key is the op name, the device, then "T", an underscore and the data type, with no separators. */
  lemma KeyLayout(opName: string, device: DeviceType, dt: DataType)
    ensures Key(opName, device, dt) == opName + Decimal(device) + "T_" + Decimal(dt)
  {
    assert TypeOrder[..0] == [];
  }

  /** Only the constraint named "T" reaches the key; any other constraint is ignored. */
  lemma KeyOnlyReadsT(b1: OpKeyBuilder, b2: OpKeyBuilder)
    requires b1.deviceType.Some? && b2.deviceType.Some?
    requires b1.opName == b2.opName && b1.deviceType == b2.deviceType
    requires ConstraintOf(b1.typeConstraint, "T") == ConstraintOf(b2.typeConstraint, "T")
    ensures KeyOf(b1) == KeyOf(b2)
  {
    assert TypeOrder[..0] == [];
  }

  /**
   * For one op name, the key determines the device and the data type:
   * distinct (device, dt) pairs never share a key.
   */
  lemma KeyInjective(opName: string, d1: DeviceType, t1: DataType, d2: DeviceType, t2: DataType)
    ensures Key(opName, d1, t1) == Key(opName, d2, t2) <==> d1 == d2 && t1 == t2
  {
    var s1, s2 := Decimal(d1), Decimal(d2);
    var r1, r2 := "T_" + Decimal(t1), "T_" + Decimal(t2);
    KeyLayout(opName, d1, t1);
    KeyLayout(opName, d2, t2);
    Regroup(opName, s1, "T_", Decimal(t1));
    Regroup(opName, s2, "T_", Decimal(t2));
    PrefixCancels(opName, s1 + r1, s2 + r2);
    DecimalChars(d1);
    DecimalChars(d2);
    SplitAtMarker(s1, s2, Decimal(t1), Decimal(t2));
    DecimalInjective(d1, d2);
    DecimalInjective(t1, t2);
  }

  /** For one device and data type, the key determines the op name. */
  lemma KeyOpNameInjective(k1: string, k2: string, device: DeviceType, dt: DataType)
    ensures Key(k1, device, dt) == Key(k2, device, dt) <==> k1 == k2
  {
    KeyLayout(k1, device, dt);
    KeyLayout(k2, device, dt);
    Regroup(k1, Decimal(device), "T_", Decimal(dt));
    Regroup(k2, Decimal(device), "T_", Decimal(dt));
    SuffixCancels(k1, k2, Decimal(device) + ("T_" + Decimal(dt)));
  }

  lemma Regroup(a: string, b: string, c: string, d: string)
    ensures a + b + c + d == a + (b + (c + d))
  {
  }

  /** Two strings with the same prefix put in front are equal only if they were equal. */
  lemma PrefixCancels(p: string, a: string, b: string)
    ensures p + a == p + b <==> a == b
  {
    if p + a == p + b {
      assert (p + a)[|p|..] == a && (p + b)[|p|..] == b;
    }
  }

  /** Two strings with the same suffix appended are equal only if they were equal. */
  lemma SuffixCancels(a: string, b: string, rest: string)
    ensures a + rest == b + rest <==> a == b
  {
    if a + rest == b + rest {
      assert |a| == |b|;
      assert (a + rest)[..|a|] == a && (b + rest)[..|b|] == b;
    }
  }

  /**
   * A string with no 'T', then "T_", then a tail, splits uniquely: the
   * marker's position is fixed by the first 'T'.
   */
  lemma SplitAtMarker(s1: string, s2: string, e1: string, e2: string)
    requires forall i :: 0 <= i < |s1| ==> s1[i] == '-' || '0' <= s1[i] <= '9'
    requires forall i :: 0 <= i < |s2| ==> s2[i] == '-' || '0' <= s2[i] <= '9'
    ensures s1 + ("T_" + e1) == s2 + ("T_" + e2) <==> s1 == s2 && e1 == e2
  {
    var r1, r2 := s1 + ("T_" + e1), s2 + ("T_" + e2);
    if |s1| < |s2| {
      assert r1[|s1|] == 'T' != s2[|s1|] == r2[|s1|];
    } else if |s2| < |s1| {
      assert r2[|s2|] == 'T' != s1[|s2|] == r1[|s2|];
    } else {
      assert r1[..|s1|] == s1 && r2[..|s2|] == s2;
      assert r1[|s1| + 2..] == e1 && r2[|s2| + 2..] == e2;
    }
  }

  /**
   * Keys are not unique across op names: nothing separates the name from
   * the device code, so "Conv1" on device 2 and "Conv" on device 12 share a
   * key. The registry files keys per op type, so the two never meet.
   */
  lemma KeyCollisionAcrossOps()
    ensures Key("Conv1", 2, DT_FLOAT) == Key("Conv", 12, DT_FLOAT)
  {
    KeyLayout("Conv1", 2, DT_FLOAT);
    KeyLayout("Conv", 12, DT_FLOAT);
    assert Digits(12) == Digits(1) + [DigitChar(2)];
  }
}
