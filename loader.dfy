/** load_finances in utils/calculations.py: folds the key/value rows of the
    finances CSV into a dictionary, coercing each value to a number where it
    can, fills in the nine required fields, truncates the two counts to whole
    numbers and attaches the baseline runway. The CSV file itself is not read:
    the rows are the input. */
module Loader {
  import opened Wrappers
  import opened Runways
  import Strings
  import Decimal

  /** A value of the loaded dictionary: a number, text that is not a number
      (kept as it was read), or the runway the loader attaches (a Python float
      that may be infinite). */
  datatype Value = Num(n: real) | Text(raw: string) | Months(runway: Runway)

  /** The exceptions Python raises while finishing the dictionary. */
  datatype LoadError =
    | NotAnInteger(key: string)  // int() of a text value: ValueError
    | NotANumber(key: string)    // comparison or division with a text value: TypeError

  type Finances = map<string, Value>

  /** The nine fields every loaded dictionary holds, in the order they are defaulted. */
  const RequiredKeys: seq<string> := ["cash", "monthly_burn", "revenue", "expenses",
    "monthly_marketing", "current_hires", "avg_cost_per_hire", "baseline_price", "units_sold"]

  /** One CSV value: a number if it parses, else a number if it parses once
      its commas are removed, else the text as it was. Stated without the
      chain: the value is a number exactly when the comma-free text parses,
      and then it is that number. */
  function Coerce(raw: string): (v: Value)
    ensures v.Num? || v == Text(raw)
    ensures v.Num? <==> Decimal.ParseDecimal(Strings.StripCommas(raw)).Some?
    ensures v.Num? ==> Decimal.ParseDecimal(Strings.StripCommas(raw)) == Some(v.n)
  {
    match Decimal.ParseDecimal(raw)
    case Some(x) => Num(x)
    case None =>
      match Decimal.ParseDecimal(Strings.StripCommas(raw))
      case Some(x) => Num(x)
      case None => Text(raw)
  }

  /** The dictionary after the row loop: each row stores its coerced value
      under its stripped key, a later row replacing an earlier one. Only
      numbers and text are stored (RowsHoldNoRunway). */
  function Rows(rows: seq<(string, string)>): Finances {
    if rows == [] then map[]
    else
      var last := rows[|rows| - 1];
      Rows(rows[..|rows| - 1])[Strings.Trim(last.0) := Coerce(last.1)]
  }

  /** The dictionary after finances.setdefault(k, 0.0) for each k of keys in
      turn: every key of m keeps its value, and each of keys that m lacks is 0. */
  function Defaulted(m: Finances, keys: seq<string>): Finances {
    if keys == [] then m
    else
      var d := Defaulted(m, keys[..|keys| - 1]);
      var k := keys[|keys| - 1];
      if k in d then d else d[k := Num(0.0)]
  }

  /** What setdefault promises: every required key is present afterwards, a
      key already present keeps its value, and a key that was absent is 0. */
  lemma {:induction false} DefaultedFields(m: Finances, keys: seq<string>)
    ensures var d := Defaulted(m, keys);
      (forall k :: k in d <==> k in m || k in keys)
      && (forall k :: k in d ==> d[k] == if k in m then m[k] else Num(0.0))
  {
    if keys != [] {
      var init := keys[..|keys| - 1];
      DefaultedFields(m, init);
      assert keys == init + [keys[|keys| - 1]];
    }
  }

  /** The dictionary the loader finishes: the rows' dictionary with the
      required fields defaulted. */
  function Baseline(rows: seq<(string, string)>): (d: Finances)
    ensures forall k :: k in RequiredKeys ==> k in d
    ensures "cash" in d && "monthly_burn" in d && "current_hires" in d && "units_sold" in d
  {
    var m := Rows(rows);
    DefaultedRequired(m);
    Defaulted(m, RequiredKeys)
  }

  /** Defaulting the required fields puts each of them, by name, in any dictionary. */
  lemma DefaultedRequired(m: Finances)
    ensures var d := Defaulted(m, RequiredKeys);
      (forall k :: k in RequiredKeys ==> k in d)
      && "cash" in d && "monthly_burn" in d && "current_hires" in d && "units_sold" in d
  {
    DefaultedFields(m, RequiredKeys);
    assert RequiredKeys[0] == "cash" && RequiredKeys[1] == "monthly_burn";
    assert RequiredKeys[5] == "current_hires" && RequiredKeys[8] == "units_sold";
  }

  /** The row loop of load_finances: finances[key.strip()] = coerced value. */
  method FoldRows(rows: seq<(string, string)>) returns (finances: Finances)
    ensures finances == Rows(rows)
  {
    finances := map[];
    var i := 0;
    while i < |rows|
      invariant 0 <= i <= |rows|
      invariant finances == Rows(rows[..i])
    {
      var key, value := Strings.Trim(rows[i].0), Coerce(rows[i].1);
      assert rows[..i + 1][..i] == rows[..i] && rows[..i + 1][i] == rows[i];
      assert Rows(rows[..i + 1]) == Rows(rows[..i])[key := value];
      finances := finances[key := value];
      i := i + 1;
    }
    assert rows[..|rows|] == rows;
  }

  /** The defaults loop of load_finances: finances.setdefault(k, 0.0) for each
      required field k. */
  method SetDefaults(m: Finances) returns (finances: Finances)
    ensures finances == Defaulted(m, RequiredKeys)
  {
    finances := m;
    var j := 0;
    while j < |RequiredKeys|
      invariant 0 <= j <= |RequiredKeys|
      invariant finances == Defaulted(m, RequiredKeys[..j])
    {
      assert RequiredKeys[..j + 1][..j] == RequiredKeys[..j];
      var k := RequiredKeys[j];
      if k !in finances {
        finances := finances[k := Num(0.0)];
      }
      j := j + 1;
    }
    assert RequiredKeys[..|RequiredKeys|] == RequiredKeys;
  }

  /** What load_finances returns for the rows, or the exception it raises first:
      int() of the two counts in turn, then compute_runway, which compares the
      burn with 0 and divides the cash by a positive burn. */
  function Load(rows: seq<(string, string)>): (r: Result<Finances, LoadError>)
    ensures r.Success? ==>
      && (forall k :: k in RequiredKeys ==> k in r.value)
      && "current_hires" in r.value && "units_sold" in r.value && "runway" in r.value
    ensures r.Success? ==>
      var hires, units := r.value["current_hires"], r.value["units_sold"];
      && hires.Num? && hires.n == hires.n.Floor as real
      && units.Num? && units.n == units.n.Floor as real
      && r.value["runway"].Months?
  {
    var d := Baseline(rows);
    var hires, units := d["current_hires"], d["units_sold"];
    var cash, burn := d["cash"], d["monthly_burn"];
    if !hires.Num? then Failure(NotAnInteger("current_hires"))
    else if !units.Num? then Failure(NotAnInteger("units_sold"))
    else if !burn.Num? then Failure(NotANumber("monthly_burn"))
    else if burn.n > 0.0 && !cash.Num? then Failure(NotANumber("cash"))
    else
      Success(d["current_hires" := Num(Decimal.Trunc(hires.n) as real)]
               ["units_sold" := Num(Decimal.Trunc(units.n) as real)]
               ["runway" := Months(ComputeRunway(if cash.Num? then cash.n else 0.0, burn.n))])
  }

  /** Loads the rows. Fails, with the exception Python raises first, when a
      count field holds text, when the burn holds text, or when the burn is
      positive and the cash holds text. Otherwise the result is the defaulted
      dictionary with the two counts truncated and the runway of the cash at
      the burn attached. */
  method LoadFinances(rows: seq<(string, string)>) returns (r: Result<Finances, LoadError>)
    ensures r == Load(rows)
    ensures var d := Baseline(rows);
      var hires, units := d["current_hires"], d["units_sold"];
      var cash, burn := d["cash"], d["monthly_burn"];
      r.Success? <==> hires.Num? && units.Num? && burn.Num? && (burn.n > 0.0 ==> cash.Num?)
    ensures var d := Baseline(rows);
      var hires, units, burn := d["current_hires"], d["units_sold"], d["monthly_burn"];
      r.Failure? ==>
        r.error == (if !hires.Num? then NotAnInteger("current_hires")
                    else if !units.Num? then NotAnInteger("units_sold")
                    else if !burn.Num? then NotANumber("monthly_burn")
                    else NotANumber("cash"))
    ensures var d := Baseline(rows);
      var hires, units := d["current_hires"], d["units_sold"];
      var cash, burn := d["cash"], d["monthly_burn"];
      r.Success? ==>
        r.value == d["current_hires" := Num(Decimal.Trunc(hires.n) as real)]
                    ["units_sold" := Num(Decimal.Trunc(units.n) as real)]
                    ["runway" := Months(ComputeRunway(if cash.Num? then cash.n else 0.0, burn.n))]
  {
    var finances := FoldRows(rows);
    finances := SetDefaults(finances);
    assert finances == Baseline(rows);

    var hires := finances["current_hires"];
    if !hires.Num? {
      return Failure(NotAnInteger("current_hires"));
    }
    finances := finances["current_hires" := Num(Decimal.Trunc(hires.n) as real)];
    var units := finances["units_sold"];
    if !units.Num? {
      return Failure(NotAnInteger("units_sold"));
    }
    finances := finances["units_sold" := Num(Decimal.Trunc(units.n) as real)];

    var cash, burn := finances["cash"], finances["monthly_burn"];
    if !burn.Num? {
      return Failure(NotANumber("monthly_burn"));
    }
    if burn.n > 0.0 && !cash.Num? {
      return Failure(NotANumber("cash"));
    }
    finances := finances["runway" := Months(ComputeRunway(if cash.Num? then cash.n else 0.0, burn.n))];
    return Success(finances);
  }

  /** The row loop stores only numbers and text. */
  lemma {:induction false} RowsHoldNoRunway(rows: seq<(string, string)>)
    ensures forall k :: k in Rows(rows) ==> !Rows(rows)[k].Months?
  {
    if rows != [] {
      RowsHoldNoRunway(rows[..|rows| - 1]);
    }
  }

  /** Every row's stripped key is in the rows' dictionary. */
  lemma {:induction false} RowKeyPresent(rows: seq<(string, string)>, i: nat)
    requires i < |rows|
    ensures Strings.Trim(rows[i].0) in Rows(rows)
  {
    var init := rows[..|rows| - 1];
    if i < |rows| - 1 {
      assert init[i] == rows[i];
      RowKeyPresent(init, i);
    }
  }

  /** Every key of the rows' dictionary is some row's stripped key. */
  lemma {:induction false} KeyFromRow(rows: seq<(string, string)>, k: string) returns (i: nat)
    requires k in Rows(rows)
    ensures i < |rows| && Strings.Trim(rows[i].0) == k
  {
    var init := rows[..|rows| - 1];
    if Strings.Trim(rows[|rows| - 1].0) == k {
      i := |rows| - 1;
    } else {
      i := KeyFromRow(init, k);
      assert init[i] == rows[i];
    }
  }

  /** A key is in the rows' dictionary exactly when some row's stripped key is it. */
  lemma RowsKeys(rows: seq<(string, string)>, k: string)
    ensures k in Rows(rows) <==> exists i :: 0 <= i < |rows| && Strings.Trim(rows[i].0) == k
  {
    if k in Rows(rows) {
      var i := KeyFromRow(rows, k);
    }
    if exists i :: 0 <= i < |rows| && Strings.Trim(rows[i].0) == k {
      var i :| 0 <= i < |rows| && Strings.Trim(rows[i].0) == k;
      RowKeyPresent(rows, i);
    }
  }

  /** The last row with a given stripped key decides its value: rows after it
      with other keys do not touch it. */
  lemma {:induction false} LastRowWins(rows: seq<(string, string)>, i: nat)
    requires i < |rows|
    requires forall j :: i < j < |rows| ==> Strings.Trim(rows[j].0) != Strings.Trim(rows[i].0)
    ensures Strings.Trim(rows[i].0) in Rows(rows)
    ensures Rows(rows)[Strings.Trim(rows[i].0)] == Coerce(rows[i].1)
  {
    var init := rows[..|rows| - 1];
    if i < |rows| - 1 {
      assert init[i] == rows[i];
      LastRowWins(init, i);
    }
  }

  /** A row whose key is not a required field leaves the required fields as they were. */
  lemma OtherKeysKeepRequired(rows: seq<(string, string)>, row: (string, string))
    ensures Strings.Trim(row.0) !in RequiredKeys ==>
      forall k :: k in RequiredKeys ==> Baseline(rows + [row])[k] == Baseline(rows)[k]
  {
    var rows' := rows + [row];
    assert rows'[..|rows'| - 1] == rows;
    DefaultedFields(Rows(rows), RequiredKeys);
    DefaultedFields(Rows(rows'), RequiredKeys);
  }

  /** With no rows at all, the nine required fields are all 0 and nothing else
      is present; the load succeeds and its runway is unbounded. */
  lemma EmptySourceDefaults()
    ensures Baseline([]).Keys == set k | k in RequiredKeys
    ensures forall k :: k in RequiredKeys ==> Baseline([])[k] == Num(0.0)
    ensures Load([]).Success? && Load([]).value["runway"] == Months(Unbounded)
  {
    DefaultedFields(map[], RequiredKeys);
    DefaultedRequired(map[]);
  }

  /** Digits with a fraction are read as the decimal number they spell. */
  lemma CoerceFraction(a: string, b: string)
    requires Decimal.AllDigits(a) && Decimal.AllDigits(b) && |a| + |b| > 0
    ensures Decimal.AllDigits(a + b)
    ensures Coerce(a + "." + b) == Num(Decimal.ShiftedValue(a + b, |b|))
  {
    Decimal.ParseFraction(a, b);
  }

  /** A number written with thousands separators, as format(i, ',') writes it,
      is read back as that number. */
  lemma CoerceGrouped(i: int)
    ensures Coerce(Decimal.GroupedInt(i)) == Num(i as real)
  {
    Decimal.GroupedIntParses(i);
  }

  /** "1,000,000" loads as one million. */
  lemma CoerceSeparated()
    ensures Coerce("1,000,000") == Num(1000000.0)
  {
    CoerceGrouped(1000000);
    Decimal.GroupedMillion();
  }

  /** "hello" is not a number and is kept as text. */
  lemma CoerceWord()
    ensures Coerce("hello") == Text("hello")
  {
  }
}
