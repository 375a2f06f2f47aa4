/**
 * Utils/check_config.py: the configuration validator. A configuration is a JSON-like
 * dictionary; every leaf value is checked, in order, against the limits listed for its key
 * in a fixed table, and nested dictionaries are walked with the same table. The first limit
 * that does not hold raises `ValueError`; a key absent from the table raises `KeyError`.
 * Comparisons against another key read the top-level configuration.
 */
module ConfigCheck {
  import opened Wrappers

  datatype Value =
    | VInt(i: int)
    | VFloat(r: real)
    | VBool(b: bool)
    | VStr(s: string)
    | VDict(entries: seq<Entry>)

  datatype Entry = Entry(key: string, value: Value)

  /** A dictionary, as its items in iteration order. */
  type Dict = seq<Entry>

  /** A limitation table: every key with its limits, in the order they are checked. */
  type Table = seq<(string, seq<Limit>)>

  /** The Python types the table names. */
  datatype Kind = KStr | KFloat | KInt | KBool

  datatype Limit =
    | DataType(kind: Kind)
    | Minimum(min: real)
    | Maximum(max: real)
    | LowerThan(other: string)
    | GreaterThan(other: string)

  /** How `check_configuration_file` ends: normally, or with the exception it raises. */
  datatype Outcome = Passed | ValueError(key: string, rule: string) | KeyError(key: string) | TypeError(key: string)

  /** The value of one limit for one leaf. */
  datatype Verdict = Holds | Violated | Raised(error: Outcome)

  /** The table's name of a limit, which the `ValueError` message reports. */
  function RuleName(l: Limit): string {
    match l
    case DataType(_) => "data_type"
    case Minimum(_) => "minimum"
    case Maximum(_) => "maximum"
    case LowerThan(_) => "lower_than"
    case GreaterThan(_) => "greater_than"
  }

  /** `limitations`. */
  const Limitations: Table := [
    ("SETUP_FILE", [DataType(KStr)]),
    ("SIMULATION_RANGE", [DataType(KFloat), Minimum(100.0)]),
    ("SEED_MACHINE_INTERRUPTIONS", [DataType(KInt), Minimum(0.0)]),
    ("MACHINE_FAILURE_RATE", [DataType(KInt), Minimum(0.0), Maximum(100.0)]),
    ("FAILURE_MINIMAL_LENGTH", [DataType(KFloat), Minimum(1.0), LowerThan("SIMULATION_RANGE")]),
    ("FAILURE_MAXIMAL_LENGTH", [DataType(KFloat), GreaterThan("FAILURE_MINIMAL_LENGTH"), LowerThan("SIMULATION_RANGE")]),
    ("SEED_INCOMING_ORDERS", [DataType(KInt), Minimum(0.0)]),
    ("NUMBER_OF_ORDERS", [DataType(KInt), Minimum(1.0), Maximum(1000.0)]),
    ("ORDER_MINIMAL_LENGTH", [DataType(KFloat), Minimum(1.0), LowerThan("ORDER_MAXIMAL_LENGTH")]),
    ("ORDER_MAXIMAL_LENGTH", [DataType(KFloat), LowerThan("SIMULATION_RANGE"), GreaterThan("ORDER_MINIMAL_LENGTH")]),
    ("SPREAD_ORDER_COMPLEXITY", [DataType(KFloat), Minimum(0.0), Maximum(1.0)]),
    ("AGENT_SPEED", [DataType(KFloat), Minimum(1.0)]),
    ("AGENT_LONGEST_WAITING_TIME", [DataType(KFloat), Minimum(1.0)]),
    ("MACHINE_SETUP_TIME", [DataType(KFloat), Minimum(1.0), LowerThan("SIMULATION_RANGE")]),
    ("DB_IN_MEMORY", [DataType(KBool)]),
    ("TIME_FOR_ITEM_PICK_UP", [DataType(KFloat), Minimum(0.001), LowerThan("SIMULATION_RANGE")]),
    ("TIME_FOR_ITEM_STORE", [DataType(KFloat), Minimum(0.001), LowerThan("SIMULATION_RANGE")]),
    ("BASE_HEIGHT", [DataType(KFloat), Minimum(0.001)]),
    ("BASE_WIDTH", [DataType(KFloat), Minimum(0.001)]),
    ("INTERFACE_DISTANCE", [DataType(KFloat), Minimum(0.0)]),
    ("DISTANCE_BETWEEN_CELLS", [DataType(KFloat), Minimum(0.1)]),
    ("MULTIPLICATOR_UPPER_CELL", [DataType(KFloat), Minimum(0.5), Maximum(1.5)]),
    ("MULTIPLICATOR_LOWER_CELL", [DataType(KFloat), Minimum(0.5), Maximum(1.5)]),
    ("SEED_GEN_M_INTERRUPTIONS", [DataType(KInt)]),
    ("SEED_GEN_INC_ORDERS", [DataType(KInt)])
  ]

  /** `d[key]`: the entry for `key`, the first one when the item list repeats it. */
  function Lookup<V>(d: seq<(string, V)>, key: string): Option<V> {
    if d == [] then None
    else if d[0].0 == key then Some(d[0].1)
    else Lookup(d[1..], key)
  }

  /** The lookup finds a key exactly when some entry has it, and then the first such entry. */
  lemma {:induction false} LookupSpec<V>(d: seq<(string, V)>, key: string)
    ensures Lookup(d, key).Some? <==> exists i :: 0 <= i < |d| && d[i].0 == key
    ensures Lookup(d, key).Some? ==> exists i :: (
      && 0 <= i < |d| && d[i] == (key, Lookup(d, key).value)
      && forall j :: 0 <= j < i ==> d[j].0 != key)
  {
    if d != [] && d[0].0 != key {
      LookupSpec(d[1..], key);
      assert forall i :: 1 <= i < |d| ==> d[i] == d[1..][i - 1];
      if Lookup(d, key).Some? {
        var i :| 0 <= i < |d| - 1 && d[1..][i] == (key, Lookup(d, key).value)
                 && forall j :: 0 <= j < i ==> d[1..][j].0 != key;
        assert d[i + 1] == (key, Lookup(d, key).value);
      }
    }
  }

  /** `config[key]` on the top-level configuration. */
  function Find(d: Dict, key: string): (r: Option<Value>)
    ensures r.Some? <==> exists i :: 0 <= i < |d| && d[i].key == key
    ensures r.Some? ==> exists i :: 0 <= i < |d| && d[i] == Entry(key, r.value)
  {
    if d == [] then None
    else if d[0].key == key then Some(d[0].value)
    else
      var r := Find(d[1..], key);
      assert forall i :: 1 <= i < |d| ==> d[i] == d[1..][i - 1];
      r
  }

  /** `data_type`: the type must match exactly, except that `float` also admits `int`. */
  function TypeMatches(v: Value, k: Kind): (r: bool)
    ensures v.VInt? ==> (r <==> k == KInt || k == KFloat)
    ensures v.VFloat? ==> (r <==> k == KFloat)
    ensures v.VBool? ==> (r <==> k == KBool)
    ensures v.VStr? ==> (r <==> k == KStr)
    ensures v.VDict? ==> !r
  {
    match k
    case KFloat => v.VFloat? || v.VInt?
    case KInt => v.VInt?
    case KBool => v.VBool?
    case KStr => v.VStr?
  }

  /** The number a value compares as; `bool` compares as 0 or 1, strings and dicts do not. */
  function Num(v: Value): Option<real> {
    match v
    case VInt(i) => Some(i as real)
    case VFloat(r) => Some(r)
    case VBool(b) => Some(if b then 1.0 else 0.0)
    case _ => None
  }

  /** `value < other` and `value > other`; a comparison Python cannot make raises `TypeError`. */
  function Compare(key: string, value: Value, other: Value, lower: bool): Verdict {
    match (Num(value), Num(other))
    case (Some(x), Some(y)) => if (if lower then x < y else x > y) then Holds else Violated
    case _ => Raised(TypeError(key))
  }

  /**
   * One checker of `functionList`. Minimum and maximum are inclusive bounds; lower_than
   * and greater_than are strict and compare with another top-level key, whose absence
   * raises `KeyError`.
   */
  function Rule(key: string, value: Value, limit: Limit, config: Dict): (r: Verdict)
    ensures limit.DataType? ==> (r == Holds <==> TypeMatches(value, limit.kind)) && !r.Raised?
    ensures limit.Minimum? && Num(value).Some? ==> (r == Holds <==> Num(value).value >= limit.min) && !r.Raised?
    ensures limit.Maximum? && Num(value).Some? ==> (r == Holds <==> Num(value).value <= limit.max) && !r.Raised?
    ensures limit.LowerThan? && Find(config, limit.other).None? ==> r == Raised(KeyError(limit.other))
    ensures limit.LowerThan? && Find(config, limit.other).Some? && Num(value).Some?
              && Num(Find(config, limit.other).value).Some? ==>
      (r == Holds <==> Num(value).value < Num(Find(config, limit.other).value).value) && !r.Raised?
    ensures limit.GreaterThan? && Find(config, limit.other).None? ==> r == Raised(KeyError(limit.other))
    ensures limit.GreaterThan? && Find(config, limit.other).Some? && Num(value).Some?
              && Num(Find(config, limit.other).value).Some? ==>
      (r == Holds <==> Num(value).value > Num(Find(config, limit.other).value).value) && !r.Raised?
  {
    match limit
    case DataType(k) => if TypeMatches(value, k) then Holds else Violated
    case Minimum(m) =>
      (match Num(value)
       case Some(x) => if x >= m then Holds else Violated
       case None => Raised(TypeError(key)))
    case Maximum(m) =>
      (match Num(value)
       case Some(x) => if x <= m then Holds else Violated
       case None => Raised(TypeError(key)))
    case LowerThan(other) =>
      (match Find(config, other)
       case Some(w) => Compare(key, value, w, true)
       case None => Raised(KeyError(other)))
    case GreaterThan(other) =>
      (match Find(config, other)
       case Some(w) => Compare(key, value, w, false)
       case None => Raised(KeyError(other)))
  }

  /**
   * The inner loop of `check_config_values`: the limits of one leaf in table order. It
   * passes exactly when every limit holds; a `ValueError` names the leaf's key and the first
   * limit that does not hold.
   */
  function CheckLimits(key: string, value: Value, limits: seq<Limit>, config: Dict): Outcome {
    if limits == [] then Passed
    else
      match Rule(key, value, limits[0], config)
      case Holds => CheckLimits(key, value, limits[1..], config)
      case Violated => ValueError(key, RuleName(limits[0]))
      case Raised(e) => e
  }

  /**
   * The limits of a leaf pass exactly when every limit holds; a `ValueError` names the
   * leaf's key and the first limit that does not hold.
   */
  lemma {:induction false} CheckLimitsSpec(key: string, value: Value, limits: seq<Limit>, config: Dict)
    ensures CheckLimits(key, value, limits, config) == Passed <==>
      forall j :: 0 <= j < |limits| ==> Rule(key, value, limits[j], config) == Holds
    ensures var r := CheckLimits(key, value, limits, config);
      r.ValueError? ==> r.key == key && exists j :: (
        && 0 <= j < |limits| && Rule(key, value, limits[j], config) == Violated && r.rule == RuleName(limits[j])
        && forall i :: 0 <= i < j ==> Rule(key, value, limits[i], config) == Holds)
  {
    if limits != [] && Rule(key, value, limits[0], config) == Holds {
      CheckLimitsSpec(key, value, limits[1..], config);
      assert forall j :: 1 <= j < |limits| ==> limits[j] == limits[1..][j - 1];
      var rest := CheckLimits(key, value, limits[1..], config);
      if rest.ValueError? {
        var j :| 0 <= j < |limits| - 1 && Rule(key, value, limits[1..][j], config) == Violated
                 && rest.rule == RuleName(limits[1..][j])
                 && forall i :: 0 <= i < j ==> Rule(key, value, limits[1..][i], config) == Holds;
        assert Rule(key, value, limits[j + 1], config) == Violated;
      }
    }
  }

  /** The outcome of checking one leaf: its key must be in the table, then its limits. */
  function LeafOutcome(table: Table, leaf: Entry, config: Dict): Outcome {
    match Lookup(table, leaf.key)
    case None => KeyError(leaf.key)
    case Some(limits) => CheckLimits(leaf.key, leaf.value, limits, config)
  }

  /** A leaf passes exactly when its key is in the table and every limit of that key holds. */
  lemma LeafOutcomeSpec(table: Table, leaf: Entry, config: Dict)
    ensures LeafOutcome(table, leaf, config) == Passed <==>
      && Lookup(table, leaf.key).Some?
      && forall j :: 0 <= j < |Lookup(table, leaf.key).value| ==>
           Rule(leaf.key, leaf.value, Lookup(table, leaf.key).value[j], config) == Holds
    ensures var r := LeafOutcome(table, leaf, config);
      r.ValueError? ==> (
        && r.key == leaf.key && Lookup(table, leaf.key).Some?
        && exists j :: 0 <= j < |Lookup(table, leaf.key).value|
             && Rule(leaf.key, leaf.value, Lookup(table, leaf.key).value[j], config) == Violated
             && r.rule == RuleName(Lookup(table, leaf.key).value[j]))
  {
    if Lookup(table, leaf.key).Some? {
      CheckLimitsSpec(leaf.key, leaf.value, Lookup(table, leaf.key).value, config);
    }
  }

  /** `check_config_values`: items in order; a dict is walked first, a leaf is checked. */
  function CheckValues(table: Table, con: Dict, config: Dict): Outcome
    decreases con
  {
    if con == [] then Passed
    else
      var first :=
        match con[0].value
        case VDict(entries) => CheckValues(table, entries, config)
        case _ => LeafOutcome(table, con[0], config);
      if first != Passed then first else CheckValues(table, con[1..], config)
  }

  /** `check_configuration_file`. */
  function CheckConfiguration(config: Dict): Outcome {
    CheckValues(Limitations, config, config)
  }

  // ---------------------------------------------------------------------------------------
  // The reference reading: the leaves of the configuration, checked one after another

  /** Every non-dict entry of a configuration, depth first, in iteration order. */
  function Leaves(con: Dict): seq<Entry>
    decreases con
  {
    if con == [] then []
    else
      (match con[0].value
       case VDict(entries) => Leaves(entries)
       case _ => [con[0]])
      + Leaves(con[1..])
  }

  /** The leaves checked in order; the first leaf that does not pass decides. */
  function CheckLeaves(table: Table, leaves: seq<Entry>, config: Dict): Outcome {
    if leaves == [] then Passed
    else if LeafOutcome(table, leaves[0], config) != Passed then LeafOutcome(table, leaves[0], config)
    else CheckLeaves(table, leaves[1..], config)
  }

  /** Checking leaves in order passes iff each leaf passes, and otherwise reports the first failure. */
  lemma {:induction false} CheckLeavesSpec(table: Table, leaves: seq<Entry>, config: Dict)
    ensures var r := CheckLeaves(table, leaves, config);
      r == Passed <==> forall i :: 0 <= i < |leaves| ==> LeafOutcome(table, leaves[i], config) == Passed
    ensures var r := CheckLeaves(table, leaves, config);
      r != Passed ==> exists i :: (
        && 0 <= i < |leaves| && LeafOutcome(table, leaves[i], config) == r
        && forall j :: 0 <= j < i ==> LeafOutcome(table, leaves[j], config) == Passed)
  {
    if leaves != [] {
      CheckLeavesSpec(table, leaves[1..], config);
      assert forall i :: 1 <= i < |leaves| ==> leaves[i] == leaves[1..][i - 1];
      var r := CheckLeaves(table, leaves, config);
      if LeafOutcome(table, leaves[0], config) == Passed && r != Passed {
        var i :| 0 <= i < |leaves| - 1 && LeafOutcome(table, leaves[1..][i], config) == r
                 && forall j :: 0 <= j < i ==> LeafOutcome(table, leaves[1..][j], config) == Passed;
        assert LeafOutcome(table, leaves[i + 1], config) == r;
      }
    }
  }

  lemma {:induction false} CheckLeavesAppend(table: Table, a: seq<Entry>, b: seq<Entry>, config: Dict)
    ensures CheckLeaves(table, a + b, config) ==
      if CheckLeaves(table, a, config) != Passed then CheckLeaves(table, a, config) else CheckLeaves(table, b, config)
  {
    if a == [] {
      assert a + b == b;
    } else {
      assert (a + b)[0] == a[0];
      assert (a + b)[1..] == a[1..] + b;
      CheckLeavesAppend(table, a[1..], b, config);
    }
  }

  /** The recursive walk checks exactly the leaves, in order. */
  lemma {:induction false} CheckValuesIsCheckLeaves(table: Table, con: Dict, config: Dict)
    ensures CheckValues(table, con, config) == CheckLeaves(table, Leaves(con), config)
    decreases con
  {
    if con != [] {
      var head := match con[0].value
        case VDict(entries) => Leaves(entries)
        case _ => [con[0]];
      assert Leaves(con) == head + Leaves(con[1..]);
      CheckLeavesAppend(table, head, Leaves(con[1..]), config);
      CheckValuesIsCheckLeaves(table, con[1..], config);
      match con[0].value
      case VDict(entries) =>
        CheckValuesIsCheckLeaves(table, entries, config);
      case _ =>
        assert [con[0]][1..] == [];
    }
  }

  /**
   * A configuration passes exactly when every leaf's key is in the table and every limit of
   * that key holds for the leaf; a `ValueError` names a leaf and one of its limits that does
   * not hold.
   */
  lemma CheckValuesSpec(table: Table, config: Dict)
    ensures var leaves := Leaves(config);
      CheckValues(table, config, config) == Passed <==>
        forall i :: 0 <= i < |leaves| ==> (
          && Lookup(table, leaves[i].key).Some?
          && forall j :: 0 <= j < |Lookup(table, leaves[i].key).value| ==>
               Rule(leaves[i].key, leaves[i].value, Lookup(table, leaves[i].key).value[j], config) == Holds)
    ensures var leaves := Leaves(config);
      var r := CheckValues(table, config, config);
      r.ValueError? ==> exists i :: (
        && 0 <= i < |leaves| && leaves[i].key == r.key && Lookup(table, r.key).Some?
        && (exists j :: 0 <= j < |Lookup(table, r.key).value| &&
              Rule(r.key, leaves[i].value, Lookup(table, r.key).value[j], config) == Violated
              && r.rule == RuleName(Lookup(table, r.key).value[j])))
  {
    CheckValuesIsCheckLeaves(table, config, config);
    CheckLeavesSpec(table, Leaves(config), config);
    var leaves := Leaves(config);
    forall i | 0 <= i < |leaves| {
      LeafOutcomeSpec(table, leaves[i], config);
    }
    var r := CheckValues(table, config, config);
    if r.ValueError? {
      var i :| 0 <= i < |leaves| && LeafOutcome(table, leaves[i], config) == r
        && forall j :: 0 <= j < i ==> LeafOutcome(table, leaves[j], config) == Passed;
      assert leaves[i].key == r.key;
    }
  }



  /** The lookup finds the first entry with the key. */
  lemma {:induction false} LookupFirst<V>(d: seq<(string, V)>, i: nat, key: string)
    requires i < |d| && d[i].0 == key
    requires forall j :: 0 <= j < i ==> d[j].0 != key
    ensures Lookup(d, key) == Some(d[i].1)
  {
    if i > 0 {
      LookupFirst(d[1..], i - 1, key);
    }
  }

  /** A configuration of one leaf is decided by that leaf's limits alone. */
  lemma SingleLeaf(table: Table, e: Entry, limits: seq<Limit>)
    requires !e.value.VDict? && Lookup(table, e.key) == Some(limits)
    ensures CheckValues(table, [e], [e]) == CheckLimits(e.key, e.value, limits, [e])
  {
    assert [e][1..] == [];
  }

  /** A leaf inside a dict is checked against the same table, comparing with the top level. */
  lemma NestedLeaf(table: Table, name: string, e: Entry, limits: seq<Limit>)
    requires !e.value.VDict? && Lookup(table, e.key) == Some(limits)
    ensures var c := [Entry(name, VDict([e]))];
      CheckValues(table, c, c) == CheckLimits(e.key, e.value, limits, c)
  {
    var c := [Entry(name, VDict([e]))];
    SingleLeafIn(table, e, limits, c);
    assert c[1..] == [];
  }

  lemma SingleLeafIn(table: Table, e: Entry, limits: seq<Limit>, config: Dict)
    requires !e.value.VDict? && Lookup(table, e.key) == Some(limits)
    ensures CheckValues(table, [e], config) == CheckLimits(e.key, e.value, limits, config)
  {
    assert [e][1..] == [];
    assert LeafOutcome(table, e, config) == CheckLimits(e.key, e.value, limits, config);
  }

  // ---------------------------------------------------------------------------------------
  // check_state_attributes

  /** Attribute lists per entity kind (`order`, `buffer`, `machine`, `agent`). */
  type StateLists = seq<(string, seq<string>)>

  datatype AttributesOutcome = AttributesOk | NormalStateViolation | SmartStateViolation | MissingStateKey(key: string)

  /** `set(a) <= set(b)`. */
  predicate Within(a: seq<string>, b: seq<string>) {
    forall i :: 0 <= i < |a| ==> a[i] in b
  }

  /** The attributes every state needs (they are the normal state's order attributes). */
  const EssentialAttributes: StateLists := [
    ("order", ["type", "tasks_finished", "next_task", "locked", "picked_up", "in_same_cell", "in_m_input", "in_m"]),
    ("buffer", []), ("machine", []), ("agent", [])
  ]

  /** state_attributes.py, `normal_state`. */
  const NormalState: StateLists := [
    ("order", ["type", "tasks_finished", "next_task", "locked", "picked_up", "in_same_cell", "in_m_input", "in_m"]),
    ("buffer", []), ("machine", []), ("agent", [])
  ]

  /** state_attributes.py, `smart_state`. */
  const SmartState: StateLists := [
    ("order", ["start", "due_to", "complexity", "type", "time_in_cell", "locked", "picked_up", "processing",
               "tasks_finished", "remaining_tasks", "next_task", "distance", "in_m", "in_m_input", "in_same_cell"]),
    ("buffer", ["interface_ingoing", "interface_outgoing"]),
    ("machine", ["machine_type", "current_setup", "in_setup", "next_setup", "remaining_setup_time", "manufacturing",
                 "failure", "remaining_man_time", "failure_fixed_in"]),
    ("agent", ["moving", "remaining_moving_time", "next_position", "has_task", "locked_item"])
  ]

  /**
   * `check_state_attributes` over given lists: per essential kind, in order, the normal
   * list is checked before the smart one; a kind missing from either raises `KeyError`.
   */
  function CheckStateAttributes(essential: StateLists, normal: StateLists, smart: StateLists): AttributesOutcome {
    if essential == [] then AttributesOk
    else
      var (key, value) := essential[0];
      match Lookup(normal, key)
      case None => MissingStateKey(key)
      case Some(n) =>
        if !Within(value, n) then NormalStateViolation
        else
          match Lookup(smart, key)
          case None => MissingStateKey(key)
          case Some(s) =>
            if !Within(value, s) then SmartStateViolation else CheckStateAttributes(essential[1..], normal, smart)
  }

  /** The check passes exactly when every essential list is within both state lists of its kind. */
  lemma {:induction false} CheckStateAttributesSpec(essential: StateLists, normal: StateLists, smart: StateLists)
    ensures CheckStateAttributes(essential, normal, smart) == AttributesOk <==> forall i :: 0 <= i < |essential| ==> (
      && Lookup(normal, essential[i].0).Some? && Within(essential[i].1, Lookup(normal, essential[i].0).value)
      && Lookup(smart, essential[i].0).Some? && Within(essential[i].1, Lookup(smart, essential[i].0).value))
  {
    if essential != [] {
      CheckStateAttributesSpec(essential[1..], normal, smart);
      assert forall i :: 1 <= i < |essential| ==> essential[i] == essential[1..][i - 1];
    }
  }

  /** The shipped normal and smart states contain the essential attributes. */
  lemma ShippedStateAttributesPass()
    ensures CheckStateAttributes(EssentialAttributes, NormalState, SmartState) == AttributesOk
  {
    LookupFirst(NormalState, 0, "order");
    LookupFirst(SmartState, 0, "order");
    LookupFirst(NormalState, 1, "buffer");
    LookupFirst(SmartState, 1, "buffer");
    LookupFirst(NormalState, 2, "machine");
    LookupFirst(SmartState, 2, "machine");
    LookupFirst(NormalState, 3, "agent");
    LookupFirst(SmartState, 3, "agent");
  }
}

/** Verdicts of `check_configuration_file` with the shipped limitation table. */
module ConfigCheckExamples {
  import opened Wrappers
  import opened ConfigCheck

  /** The shipped limits of the failure rate: an `int` between 0 and 100. */
  lemma FailureRateLimits()
    ensures Lookup(Limitations, "MACHINE_FAILURE_RATE") == Some([DataType(KInt), Minimum(0.0), Maximum(100.0)])
  {
    LookupFirst(Limitations, 3, "MACHINE_FAILURE_RATE");
  }

  /** The shipped limits of the agent speed: a `float` of at least 1. */
  lemma AgentSpeedLimits()
    ensures Lookup(Limitations, "AGENT_SPEED") == Some([DataType(KFloat), Minimum(1.0)])
  {
    LookupFirst(Limitations, 11, "AGENT_SPEED");
  }

  /** The shipped table: a failure rate of 100 % is within its inclusive maximum. */
  lemma FailureRateAtMaximum()
    ensures CheckConfiguration([Entry("MACHINE_FAILURE_RATE", VInt(100))]) == Passed
  {
    var limits := [DataType(KInt), Minimum(0.0), Maximum(100.0)];
    FailureRateLimits();
    SingleLeaf(Limitations, Entry("MACHINE_FAILURE_RATE", VInt(100)), limits);
    assert limits[1..][1..][1..] == [];
  }

  /** The shipped table: a failure rate above 100 % violates the maximum. */
  lemma FailureRateAboveMaximum()
    ensures CheckConfiguration([Entry("MACHINE_FAILURE_RATE", VInt(101))]) == ValueError("MACHINE_FAILURE_RATE", "maximum")
  {
    var limits := [DataType(KInt), Minimum(0.0), Maximum(100.0)];
    FailureRateLimits();
    SingleLeaf(Limitations, Entry("MACHINE_FAILURE_RATE", VInt(101)), limits);
    assert limits[1..][1..] == [Maximum(100.0)];
  }

  /** The shipped table: a bool is not an `int`. */
  lemma BoolIsNoInteger()
    ensures CheckConfiguration([Entry("MACHINE_FAILURE_RATE", VBool(true))]) == ValueError("MACHINE_FAILURE_RATE", "data_type")
  {
    FailureRateLimits();
    SingleLeaf(Limitations, Entry("MACHINE_FAILURE_RATE", VBool(true)), [DataType(KInt), Minimum(0.0), Maximum(100.0)]);
  }

  /** The shipped table: an integer speed passes the `float` type. */
  lemma IntegerSpeedAccepted()
    ensures CheckConfiguration([Entry("AGENT_SPEED", VInt(1))]) == Passed
  {
    var limits := [DataType(KFloat), Minimum(1.0)];
    AgentSpeedLimits();
    SingleLeaf(Limitations, Entry("AGENT_SPEED", VInt(1)), limits);
    assert limits[1..][1..] == [];
  }

  /** The shipped table: a leaf inside a nested dict is checked against the same table. */
  lemma NestedLeafChecked()
    ensures CheckConfiguration([Entry("AGENTS", VDict([Entry("AGENT_SPEED", VFloat(0.5))]))])
      == ValueError("AGENT_SPEED", "minimum")
  {
    var limits := [DataType(KFloat), Minimum(1.0)];
    AgentSpeedLimits();
    NestedLeaf(Limitations, "AGENTS", Entry("AGENT_SPEED", VFloat(0.5)), limits);
    assert limits[1..] == [Minimum(1.0)];
  }
}
