/**
 From a configuration file to driver controls: the band settings and the AF thresholds.

 The driver is the multiset of the controls it is sent.  `bsearch` in the sorted name tables is a lookup
 by name.  The search thresholds and the hybrid list are not part of this model.
 */
module PerformanceConfig {
  import opened Wrappers
  import opened Folds
  import opened ChainedHash
  import opened KeyTable
  import opened ConfText
  import opened ConfLoader
  import opened HybridSearch

  datatype Control =
    | Band(low: nat, high: nat)
    | Emphasis(value: int)
    | ChSpacing(value: int)
    | AfRmssiTh(value: int)
    | AfRmssiSamples(value: int)
    | GoodChRmssiTh(value: int)

  // ---------------------------------------------------------------------------------------
  // What a configuration asks for
  // ---------------------------------------------------------------------------------------

  datatype BandParam = RADIO_BAND | EMPHASIS | CHANNEL_SPACING
  datatype AfParam = AF_RMSSI_TH | AF_RMSSI_SAMPLES | GOOD_CH_RMSSI_TH
  datatype Grp = AF_THS | BAND_CFG

  const CH_SPACING_KEY: string := "ChSpacing"
  const EMPHASIS_KEY: string := "Emphasis"
  const RADIO_BAND_KEY: string := "RadioBand"
  const AF_SAMPLES_KEY: string := "AfRmssiSamplesCnt"
  const AF_TH_KEY: string := "AfRmssiTh"
  const GOOD_CH_KEY: string := "GoodChRmssiTh"
  const AF_GRP: string := "AFTHRESHOLDS"
  const BAND_GRP: string := "BANDCONFIG"

  /** The name tables that `bsearch` looks in. */
  const BAND_CFG_MAP: seq<(string, BandParam)> :=
    [(CH_SPACING_KEY, CHANNEL_SPACING), (EMPHASIS_KEY, EMPHASIS), (RADIO_BAND_KEY, RADIO_BAND)]
  const AF_PARAMS_MAP: seq<(string, AfParam)> :=
    [(AF_SAMPLES_KEY, AF_RMSSI_SAMPLES), (AF_TH_KEY, AF_RMSSI_TH), (GOOD_CH_KEY, GOOD_CH_RMSSI_TH)]
  const GRPS_MAP: seq<(string, Grp)> :=
    [(AF_GRP, AF_THS), (BAND_GRP, BAND_CFG)]

  lemma TablesDistinct()
    ensures NoDuplicates(Names(BAND_CFG_MAP)) && "" !in Names(BAND_CFG_MAP)
    ensures NoDuplicates(Names(AF_PARAMS_MAP)) && "" !in Names(AF_PARAMS_MAP)
    ensures NoDuplicates(Names(GRPS_MAP))
  {
    assert CH_SPACING_KEY[0] == 'C' && EMPHASIS_KEY[0] == 'E' && RADIO_BAND_KEY[0] == 'R';
    assert |AF_SAMPLES_KEY| == 17 && |AF_TH_KEY| == 9 && |GOOD_CH_KEY| == 13;
    assert |AF_GRP| == 12 && |BAND_GRP| == 10;
  }

  /** The band limits in kHz of a band number. */
  function BandLimits(v: int): (nat, nat) {
    if v == 1 then (87500, 108000) else if v == 2 then (76000, 108000) else (76000, 90000)
  }

  /** The control that a value asks for, none when it is out of range. */
  function BandValue(param: BandParam, v: int): multiset<Control> {
    match param
    case RADIO_BAND => if 1 <= v <= 3 then multiset{Band(BandLimits(v).0, BandLimits(v).1)} else multiset{}
    case EMPHASIS => if 0 <= v <= 1 then multiset{Emphasis(v)} else multiset{}
    case CHANNEL_SPACING => if 0 <= v <= 2 then multiset{ChSpacing(v)} else multiset{}
  }

  function AfValue(param: AfParam, v: int): multiset<Control> {
    match param
    case AF_RMSSI_TH => if 0 <= v <= 65535 then multiset{AfRmssiTh(v)} else multiset{}
    case AF_RMSSI_SAMPLES => if 0 <= v <= 255 then multiset{AfRmssiSamples(v)} else multiset{}
    case GOOD_CH_RMSSI_TH => if -128 <= v <= 127 then multiset{GoodChRmssiTh(v)} else multiset{}
  }

  /** What a key with a value asks for; an unknown key or an empty value asks for nothing. */
  function BandControl(key: string, text: string): multiset<Control> {
    var found := Find(BAND_CFG_MAP, key);
    if found.None? || text == "" then multiset{} else BandValue(found.value, Atoi(text))
  }

  function AfControl(key: string, text: string): multiset<Control> {
    var found := Find(AF_PARAMS_MAP, key);
    if found.None? || text == "" then multiset{} else AfValue(found.value, Atoi(text))
  }

  /** What one name asks for, if the map has it. */
  function Asked<V>(m: map<string, V>, name: string, ask: (string, V) -> multiset<Control>): multiset<Control> {
    if name in m then ask(name, m[name]) else multiset{}
  }

  /** What the names ask for together. */
  function AskedBy<V>(m: map<string, V>, names: seq<string>, ask: (string, V) -> multiset<Control>): multiset<Control> {
    if names == [] then multiset{} else AskedBy(m, names[..|names| - 1], ask) + Asked(m, names[|names| - 1], ask)
  }

  function GroupControls(group: string, pairs: Pairs): multiset<Control> {
    var found := Find(GRPS_MAP, group);
    if found.None? then multiset{}
    else match found.value
      case AF_THS => AskedBy(pairs, Names(AF_PARAMS_MAP), AfControl)
      case BAND_CFG => AskedBy(pairs, Names(BAND_CFG_MAP), BandControl)
  }

  /** All that a loaded configuration asks for: a function of its content alone. */
  function Wanted(model: Model): multiset<Control> {
    AskedBy(model, Names(GRPS_MAP), GroupControls)
  }

  lemma AskedBySnoc<V>(m: map<string, V>, names: seq<string>, i: nat, ask: (string, V) -> multiset<Control>)
    requires i < |names|
    ensures AskedBy(m, names[..i + 1], ask) == AskedBy(m, names[..i], ask) + Asked(m, names[i], ask)
  {
    assert names[..i + 1][..i] == names[..i];
  }

  /** Taking one name out of the list. */
  lemma {:induction false} AskedWithout<V>(m: map<string, V>, names: seq<string>, i: nat, ask: (string, V) -> multiset<Control>)
    requires i < |names|
    ensures AskedBy(m, names, ask) == AskedBy(m, names[..i] + names[i + 1..], ask) + Asked(m, names[i], ask)
    decreases |names|
  {
    var n := |names| - 1;
    var front, last := names[..n], names[n];
    assert names == front + [last];
    AskedLast(m, front, last, ask);
    hide AskedBy, Asked;
    if i == n {
      assert names[..i] + names[i + 1..] == front;
    } else {
      var less := front[..i] + front[i + 1..];
      assert names[..i] + names[i + 1..] == less + [last];
      AskedWithout(m, front, i, ask);
      AskedLast(m, less, last, ask);
      Swap(AskedBy(m, less, ask), Asked(m, names[i], ask), Asked(m, last, ask));
    }
  }

  lemma Swap(a: multiset<Control>, b: multiset<Control>, c: multiset<Control>)
    ensures (a + b) + c == (a + c) + b
  {
  }

  lemma AskedLast<V>(m: map<string, V>, names: seq<string>, last: string, ask: (string, V) -> multiset<Control>)
    ensures AskedBy(m, names + [last], ask) == AskedBy(m, names, ask) + Asked(m, last, ask)
  {
    assert (names + [last])[..|names|] == names;
  }

  ghost predicate Silent<V>(m: map<string, V>, names: seq<string>, table: seq<string>, ask: (string, V) -> multiset<Control>) {
    forall i :: 0 <= i < |names| ==> names[i] in table || Asked(m, names[i], ask) == multiset{}
  }

  lemma {:induction false} NobodyAsks<V>(m: map<string, V>, names: seq<string>, ask: (string, V) -> multiset<Control>)
    requires Silent(m, names, [], ask)
    ensures AskedBy(m, names, ask) == multiset{}
    decreases |names|
  {
    if names != [] {
      NobodyAsks(m, names[..|names| - 1], ask);
    }
  }

  /** Two lists without repetition that differ only in names that ask for nothing ask for the same,
      up to order. */
  lemma {:induction false} SameAsked<V>(m: map<string, V>, names: seq<string>, table: seq<string>, ask: (string, V) -> multiset<Control>)
    requires NoDuplicates(names) && NoDuplicates(table)
    requires Silent(m, names, table, ask) && Silent(m, table, names, ask)
    ensures AskedBy(m, names, ask) == AskedBy(m, table, ask)
    decreases |table|
  {
    if table == [] {
      NobodyAsks(m, names, ask);
    } else {
      var n := |table| - 1;
      var last, front := table[n], table[..n];
      if last in names {
        var i :| 0 <= i < |names| && names[i] == last;
        var rest := names[..i] + names[i + 1..];
        AskedWithout(m, names, i, ask);
        assert Silent(m, rest, front, ask) by { DropFromNames(m, names, i, table, ask); }
        assert Silent(m, front, rest, ask) by { DropFromTable(m, names, i, table, ask); }
        SameAsked(m, rest, front, ask);
      } else {
        assert Asked(m, last, ask) == multiset{};
        SameAsked(m, names, front, ask);
      }
    }
  }

  lemma DropFromNames<V>(m: map<string, V>, names: seq<string>, i: nat, table: seq<string>, ask: (string, V) -> multiset<Control>)
    requires i < |names| && table != [] && names[i] == table[|table| - 1]
    requires NoDuplicates(names) && Silent(m, names, table, ask)
    ensures Silent(m, names[..i] + names[i + 1..], table[..|table| - 1], ask)
  {
    var rest := names[..i] + names[i + 1..];
    forall k | 0 <= k < |rest| ensures rest[k] in table[..|table| - 1] || Asked(m, rest[k], ask) == multiset{} {
      var k' := if k < i then k else k + 1;
      assert rest[k] == names[k'] && names[k'] != names[i];
    }
  }

  lemma DropFromTable<V>(m: map<string, V>, names: seq<string>, i: nat, table: seq<string>, ask: (string, V) -> multiset<Control>)
    requires i < |names| && table != [] && names[i] == table[|table| - 1]
    requires NoDuplicates(table) && Silent(m, table, names, ask)
    ensures Silent(m, table[..|table| - 1], names[..i] + names[i + 1..], ask)
  {
    var front, rest := table[..|table| - 1], names[..i] + names[i + 1..];
    forall k | 0 <= k < |front| ensures front[k] in rest || Asked(m, front[k], ask) == multiset{} {
      assert front[k] == table[k] && table[k] != names[i];
      if table[k] in names {
        var j :| 0 <= j < |names| && names[j] == table[k];
        assert rest[if j < i then j else j - 1] == front[k];
      }
    }
  }

  // ---------------------------------------------------------------------------------------
  // The setters
  // ---------------------------------------------------------------------------------------

  /** The narrowing conversions to the setters' parameter types. */
  function ToUChar(v: int): int { v % 256 }
  function ToUShort(v: int): int { v % 65536 }

  class Driver {
    var sent: multiset<Control>

    constructor ()
      ensures sent == multiset{}
    {
      sent := multiset{};
    }

    /** `SetBand` after narrowing to `unsigned char`. */
    method SetBand(band: int)
      requires 0 <= band <= 255
      modifies this
      ensures sent == old(sent) + BandValue(RADIO_BAND, band)
      ensures sent == old(sent) +
        if band == 1 then multiset{Band(87500, 108000)}
        else if band == 2 then multiset{Band(76000, 108000)}
        else if band == 3 then multiset{Band(76000, 90000)}
        else multiset{}
    {
      if band == 1 {
        sent := sent + multiset{Band(87500, 108000)};
      } else if band == 2 {
        sent := sent + multiset{Band(76000, 108000)};
      } else if band == 3 {
        sent := sent + multiset{Band(76000, 90000)};
      }
    }

    /** `SetEmphsis` after narrowing to `unsigned char`. */
    method SetEmphasis(emph: int)
      requires 0 <= emph <= 255
      modifies this
      ensures sent == old(sent) + BandValue(EMPHASIS, emph)
    {
      if emph == 0 || emph == 1 {
        sent := sent + multiset{Emphasis(emph)};
      }
    }

    /** The setters that hand their argument to `set_control`. */
    method SetControl(control: Control)
      modifies this
      ensures sent == old(sent) + multiset{control}
    {
      sent := sent + multiset{control};
    }
  }

  /** In range, narrowing changes nothing; out of range, nothing is asked for. */
  lemma BandNarrowing(v: int)
    ensures if 1 <= v <= 3 then ToUChar(v) == v else BandValue(RADIO_BAND, v) == multiset{}
    ensures if 0 <= v <= 1 then ToUChar(v) == v else BandValue(EMPHASIS, v) == multiset{}
    ensures if 0 <= v <= 2 then BandValue(CHANNEL_SPACING, v) == multiset{ChSpacing(ToUChar(v))}
            else BandValue(CHANNEL_SPACING, v) == multiset{}
  {
  }

  lemma AfNarrowing(v: int)
    ensures AfValue(AF_RMSSI_TH, v) == if 0 <= v <= 65535 then multiset{AfRmssiTh(ToUShort(v))} else multiset{}
    ensures AfValue(AF_RMSSI_SAMPLES, v) == if 0 <= v <= 255 then multiset{AfRmssiSamples(ToUChar(v))} else multiset{}
    ensures AfValue(GOOD_CH_RMSSI_TH, v) ==
      if -128 <= v <= 127 then multiset{GoodChRmssiTh(ToSignedChar(v))} else multiset{}
  {
  }

  /** The switch of `set_band_cfgs`. */
  method ApplyBand(param: BandParam, value: int, driver: Driver)
    modifies driver
    ensures driver.sent == old(driver.sent) + BandValue(param, value)
  {
    hide BandValue;
    BandNarrowing(value);
    match param
    case RADIO_BAND =>
      if 1 <= value <= 3 {
        driver.SetBand(ToUChar(value));
      }
    case EMPHASIS =>
      if 0 <= value <= 1 {
        driver.SetEmphasis(ToUChar(value));
      }
    case CHANNEL_SPACING =>
      if 0 <= value <= 2 {
        driver.SetControl(ChSpacing(ToUChar(value)));
      }
  }

  /** The switch of `set_af_ths`. */
  method ApplyAf(param: AfParam, value: int, driver: Driver)
    modifies driver
    ensures driver.sent == old(driver.sent) + AfValue(param, value)
  {
    hide AfValue, ToUChar, ToUShort, ToSignedChar;
    AfNarrowing(value);
    match param
    case AF_RMSSI_TH =>
      if 0 <= value <= 65535 {
        driver.SetControl(AfRmssiTh(ToUShort(value)));
      }
    case AF_RMSSI_SAMPLES =>
      if 0 <= value <= 255 {
        driver.SetControl(AfRmssiSamples(ToUChar(value)));
      }
    case GOOD_CH_RMSSI_TH =>
      if -128 <= value <= 127 {
        driver.SetControl(GoodChRmssiTh(ToSignedChar(value)));
      }
  }

  /** The names in a NULL-terminated listing. */
  function ListedNames(cells: seq<Option<string>>, n: nat): (names: seq<string>)
    requires n <= |cells| && forall t :: 0 <= t < n ==> cells[t].Some?
  {
    seq(n, t requires 0 <= t < n => cells[t].value)
  }

  /** A NULL-terminated array that holds these names of the map. */
  ghost predicate Lists<V>(cells: seq<Option<string>>, names: seq<string>, m: map<string, V>) {
    && |cells| == |names| + 1 && cells[|names|] == None
    && forall t :: 0 <= t < |names| ==> cells[t] == Some(names[t]) && names[t] in m
  }

  lemma ListingLists<V>(cells: seq<Option<string>>, m: map<string, V>)
    requires IsListing(cells, m)
    ensures Lists(cells, ListedNames(cells, |m|), m)
  {
  }

  /** A listing asks for what the table of names asks for, up to order. */
  lemma ListingAsks<V>(cells: seq<Option<string>>, m: map<string, V>, table: seq<string>, ask: (string, V) -> multiset<Control>)
    requires IsListing(cells, m) && NoDuplicates(table)
    requires forall name, v :: name !in table ==> ask(name, v) == multiset{}
    ensures AskedBy(m, ListedNames(cells, |m|), ask) == AskedBy(m, table, ask)
  {
    var names := ListedNames(cells, |m|);
    assert NoDuplicates(names);
    forall i | 0 <= i < |table| ensures table[i] in names || Asked(m, table[i], ask) == multiset{} {
      if table[i] in m {
        var t :| 0 <= t < |cells| && cells[t] == Some(table[i]);
        assert names[t] == table[i];
      }
    }
    SameAsked(m, names, table, ask);
  }

  // ---------------------------------------------------------------------------------------
  // The loops over groups and keys
  // ---------------------------------------------------------------------------------------

  /** One key of `set_band_cfgs`: its value is looked up and, unless empty, acted on. */
  method BandKey(t: GroupTable, key: string, driver: Driver)
    requires t.Valid() && driver !in t.repr && BAND_GRP in t.model && key in t.model[BAND_GRP]
    modifies driver
    ensures driver.sent == old(driver.sent) + Asked(t.model[BAND_GRP], key, BandControl)
  {
    var found := Find(BAND_CFG_MAP, key);
    TablesDistinct();
    FindIsMember(BAND_CFG_MAP, "");
    if found.Some? {
      var text := t.GetValue(BAND_GRP, key);
      if text.Some? && text.value != "" {
        ApplyBand(found.value, Atoi(text.value), driver);
      }
    }
  }

  /** The loop of `set_band_cfgs`. */
  method BandKeys(t: GroupTable, keys: array<Option<string>>, ghost names: seq<string>, driver: Driver)
    requires t.Valid() && driver !in t.repr && BAND_GRP in t.model && Lists(keys[..], names, t.model[BAND_GRP])
    modifies driver
    ensures driver.sent == old(driver.sent) + AskedBy(t.model[BAND_GRP], names, BandControl)
  {
    ghost var m := t.model[BAND_GRP];
    var i: nat := 0;
    while keys[i] != None
      invariant i <= |names| && t.Valid()
      invariant driver.sent == old(driver.sent) + AskedBy(m, names[..i], BandControl)
      decreases |names| - i
    {
      AskedBySnoc(m, names, i, BandControl);
      BandKey(t, keys[i].value, driver);
      i := i + 1;
    }
    assert names[..i] == names;
  }

  /** `set_band_cfgs` */
  method SetBandCfgs(t: GroupTable, driver: Driver)
    requires t.Valid() && driver !in t.repr
    modifies driver
    ensures driver.sent == old(driver.sent) + Asked(t.model, BAND_GRP, GroupControls)
  {
    assert Find(GRPS_MAP, BAND_GRP) == Some(BAND_CFG);
    EmptyAsks<string>(map[], Names(BAND_CFG_MAP), BandControl);
    var keys := t.GetKeys(BAND_GRP);
    if keys != null {
      ghost var m := t.model[BAND_GRP];
      ListingLists(keys[..], m);
      BandAsks(keys[..], m);
      BandKeys(t, keys, ListedNames(keys[..], |m|), driver);
    }
  }

  /** One key of `set_af_ths`: its value is looked up and, unless empty, acted on. */
  method AfKey(t: GroupTable, key: string, driver: Driver)
    requires t.Valid() && driver !in t.repr && AF_GRP in t.model && key in t.model[AF_GRP]
    modifies driver
    ensures driver.sent == old(driver.sent) + Asked(t.model[AF_GRP], key, AfControl)
  {
    var found := Find(AF_PARAMS_MAP, key);
    TablesDistinct();
    FindIsMember(AF_PARAMS_MAP, "");
    if found.Some? {
      var text := t.GetValue(AF_GRP, key);
      if text.Some? && text.value != "" {
        ApplyAf(found.value, Atoi(text.value), driver);
      }
    }
  }

  /** The loop of `set_af_ths`. */
  method AfKeys(t: GroupTable, keys: array<Option<string>>, ghost names: seq<string>, driver: Driver)
    requires t.Valid() && driver !in t.repr && AF_GRP in t.model && Lists(keys[..], names, t.model[AF_GRP])
    modifies driver
    ensures driver.sent == old(driver.sent) + AskedBy(t.model[AF_GRP], names, AfControl)
  {
    ghost var m := t.model[AF_GRP];
    var i: nat := 0;
    while keys[i] != None
      invariant i <= |names| && t.Valid()
      invariant driver.sent == old(driver.sent) + AskedBy(m, names[..i], AfControl)
      decreases |names| - i
    {
      AskedBySnoc(m, names, i, AfControl);
      AfKey(t, keys[i].value, driver);
      i := i + 1;
    }
    assert names[..i] == names;
  }

  /** `set_af_ths` */
  method SetAfThs(t: GroupTable, driver: Driver)
    requires t.Valid() && driver !in t.repr
    modifies driver
    ensures driver.sent == old(driver.sent) + Asked(t.model, AF_GRP, GroupControls)
  {
    assert Find(GRPS_MAP, AF_GRP) == Some(AF_THS);
    EmptyAsks<string>(map[], Names(AF_PARAMS_MAP), AfControl);
    var keys := t.GetKeys(AF_GRP);
    if keys != null {
      ghost var m := t.model[AF_GRP];
      ListingLists(keys[..], m);
      AfAsks(keys[..], m);
      AfKeys(t, keys, ListedNames(keys[..], |m|), driver);
    }
  }

  lemma {:induction false} EmptyAsks<V>(m: map<string, V>, names: seq<string>, ask: (string, V) -> multiset<Control>)
    requires m == map[]
    ensures AskedBy(m, names, ask) == multiset{}
    decreases |names|
  {
    if names != [] { EmptyAsks(m, names[..|names| - 1], ask); }
  }

  lemma BandAsks(cells: seq<Option<string>>, m: Pairs)
    requires IsListing(cells, m)
    ensures AskedBy(m, ListedNames(cells, |m|), BandControl) == AskedBy(m, Names(BAND_CFG_MAP), BandControl)
  {
    forall name, v | name !in Names(BAND_CFG_MAP) ensures BandControl(name, v) == multiset{} {
      FindIsMember(BAND_CFG_MAP, name);
    }
    ListingAsks(cells, m, Names(BAND_CFG_MAP), BandControl);
  }

  lemma AfAsks(cells: seq<Option<string>>, m: Pairs)
    requires IsListing(cells, m)
    ensures AskedBy(m, ListedNames(cells, |m|), AfControl) == AskedBy(m, Names(AF_PARAMS_MAP), AfControl)
  {
    forall name, v | name !in Names(AF_PARAMS_MAP) ensures AfControl(name, v) == multiset{} {
      FindIsMember(AF_PARAMS_MAP, name);
    }
    ListingAsks(cells, m, Names(AF_PARAMS_MAP), AfControl);
  }

  lemma GroupsAsk(cells: seq<Option<string>>, model: Model)
    requires IsListing(cells, model)
    ensures AskedBy(model, ListedNames(cells, |model|), GroupControls) == Wanted(model)
  {
    forall name, v | name !in Names(GRPS_MAP) ensures GroupControls(name, v) == multiset{} {
      FindIsMember(GRPS_MAP, name);
    }
    ListingAsks(cells, model, Names(GRPS_MAP), GroupControls);
  }

  /** One group of `SetRxSearchAfThs`. */
  method ApplyGroup(t: GroupTable, group: string, driver: Driver)
    requires t.Valid() && driver !in t.repr && group in t.model
    modifies driver
    ensures driver.sent == old(driver.sent) + Asked(t.model, group, GroupControls)
  {
    var found := Find(GRPS_MAP, group);
    FindIsMember(GRPS_MAP, group);
    if found == Some(AF_THS) {
      assert group == AF_GRP;
      SetAfThs(t, driver);
    } else if found == Some(BAND_CFG) {
      assert group == BAND_GRP;
      SetBandCfgs(t, driver);
    }
  }

  /** The loop of `SetRxSearchAfThs` over the groups. */
  method GroupLoop(t: GroupTable, grps: array<Option<string>>, ghost names: seq<string>, driver: Driver)
    requires t.Valid() && driver !in t.repr && Lists(grps[..], names, t.model)
    modifies driver
    ensures driver.sent == old(driver.sent) + AskedBy(t.model, names, GroupControls)
  {
    ghost var m := t.model;
    var i: nat := 0;
    while grps[i] != None
      invariant i <= |names| && t.Valid()
      invariant driver.sent == old(driver.sent) + AskedBy(m, names[..i], GroupControls)
      decreases |names| - i
    {
      AskedBySnoc(m, names, i, GroupControls);
      ApplyGroup(t, grps[i].value, driver);
      i := i + 1;
    }
    assert names[..i] == names;
  }

  method ApplyGroups(t: GroupTable, driver: Driver)
    requires t.Valid() && driver !in t.repr
    modifies driver
    ensures driver.sent == old(driver.sent) + Wanted(t.model)
  {
    EmptyAsks<Pairs>(map[], Names(GRPS_MAP), GroupControls);
    var grps := t.GetGrps();
    if grps != null {
      ghost var m := t.model;
      ListingLists(grps[..], m);
      GroupsAsk(grps[..], m);
      GroupLoop(t, grps, ListedNames(grps[..], |m|), driver);
    }
  }

  /** `SetRxSearchAfThs`: the blocks of the file, if it can be opened, are loaded, and on success its
      settings are sent. */
  method SetRxSearchAfThs(file: Option<seq<string>>, hash: Hash, driver: Driver)
    requires file.Some? ==> forall i :: 0 <= i < |file.value| ==> 0 < |file.value[i]| <= MAX_LINE_LEN
    modifies driver
    ensures driver.sent == old(driver.sent) + ControlsOf(file)
    ensures file.None? || !LoadStream(Load0(map[]), Concat(file.value)).ok ==> driver.sent == old(driver.sent)
  {
    if file.Some? {
      var t := new GroupTable(hash);
      var loaded := ParseLoad(t, file.value);
      if loaded {
        ApplyGroups(t, driver);
      }
      ReadIsLineByLine(map[], Concat(file.value));
    }
  }

  /** What a file asks for: nothing if it cannot be opened or one of its lines is bad. */
  function ControlsOf(file: Option<seq<string>>): multiset<Control> {
    if file.None? || !ReadStream(map[], Concat(file.value)).ok then multiset{}
    else Wanted(ReadStream(map[], Concat(file.value)).model)
  }

  // ---------------------------------------------------------------------------------------
  // Exactly what is sent
  // ---------------------------------------------------------------------------------------

  /** The number that a group gives for a key. */
  function Value(pairs: Pairs, key: string): Option<int> {
    if key in pairs && pairs[key] != "" then Some(Atoi(pairs[key])) else None
  }

  /** A group asks for a control: its key is there with the value of the control, in the range of the
      setter.  A band number stands for its limits. */
  predicate BandAskedFor(pairs: Pairs, c: Control) {
    match c
    case Band(low, high) =>
      var v := Value(pairs, "RadioBand");
      || (v == Some(1) && low == 87500 && high == 108000)
      || (v == Some(2) && low == 76000 && high == 108000)
      || (v == Some(3) && low == 76000 && high == 90000)
    case Emphasis(v) => Value(pairs, "Emphasis") == Some(v) && 0 <= v <= 1
    case ChSpacing(v) => Value(pairs, "ChSpacing") == Some(v) && 0 <= v <= 2
    case _ => false
  }

  predicate AfAskedFor(pairs: Pairs, c: Control) {
    match c
    case AfRmssiTh(v) => Value(pairs, "AfRmssiTh") == Some(v) && 0 <= v <= 65535
    case AfRmssiSamples(v) => Value(pairs, "AfRmssiSamplesCnt") == Some(v) && 0 <= v <= 255
    case GoodChRmssiTh(v) => Value(pairs, "GoodChRmssiTh") == Some(v) && -128 <= v <= 127
    case _ => false
  }

  predicate AskedFor(model: Model, c: Control) {
    || ("BANDCONFIG" in model && BandAskedFor(model["BANDCONFIG"], c))
    || ("AFTHRESHOLDS" in model && AfAskedFor(model["AFTHRESHOLDS"], c))
  }

  lemma AskedByTwo<V>(m: map<string, V>, names: seq<string>, ask: (string, V) -> multiset<Control>)
    requires |names| == 2
    ensures AskedBy(m, names, ask) == Asked(m, names[0], ask) + Asked(m, names[1], ask)
  {
    assert names == [] + [names[0]] + [names[1]];
    AskedLast(m, [], names[0], ask);
    AskedLast(m, [] + [names[0]], names[1], ask);
  }

  lemma AskedByThree<V>(m: map<string, V>, names: seq<string>, ask: (string, V) -> multiset<Control>)
    requires |names| == 3
    ensures forall c ::
      AskedBy(m, names, ask)[c] == Asked(m, names[0], ask)[c] + Asked(m, names[1], ask)[c] + Asked(m, names[2], ask)[c]
  {
    assert names == names[..2] + [names[2]];
    AskedLast(m, names[..2], names[2], ask);
    AskedByTwo(m, names[..2], ask);
  }

  /** A key of the table asks for a control at most once. */
  lemma BandKeySentOnce(pairs: Pairs, i: nat, c: Control)
    requires i < |BAND_CFG_MAP|
    ensures var (name, param) := BAND_CFG_MAP[i];
      Asked(pairs, name, BandControl)[c] ==
        if Value(pairs, name).Some? && c in BandValue(param, Value(pairs, name).value) then 1 else 0
  {
    TablesDistinct();
    FindUnique(BAND_CFG_MAP, i);
  }

  lemma AfKeySentOnce(pairs: Pairs, i: nat, c: Control)
    requires i < |AF_PARAMS_MAP|
    ensures var (name, param) := AF_PARAMS_MAP[i];
      Asked(pairs, name, AfControl)[c] ==
        if Value(pairs, name).Some? && c in AfValue(param, Value(pairs, name).value) then 1 else 0
  {
    TablesDistinct();
    FindUnique(AF_PARAMS_MAP, i);
  }

  predicate BandKeyAskedFor(pairs: Pairs, i: nat, c: Control)
    requires i < |BAND_CFG_MAP|
  {
    var v := Value(pairs, BAND_CFG_MAP[i].0);
    v.Some? && c in BandValue(BAND_CFG_MAP[i].1, v.value)
  }

  predicate AfKeyAskedFor(pairs: Pairs, i: nat, c: Control)
    requires i < |AF_PARAMS_MAP|
  {
    var v := Value(pairs, AF_PARAMS_MAP[i].0);
    v.Some? && c in AfValue(AF_PARAMS_MAP[i].1, v.value)
  }

  lemma BandKeysCount(pairs: Pairs, c: Control)
    ensures AskedBy(pairs, Names(BAND_CFG_MAP), BandControl)[c]
         == (if BandKeyAskedFor(pairs, 0, c) then 1 else 0) + (if BandKeyAskedFor(pairs, 1, c) then 1 else 0)
          + (if BandKeyAskedFor(pairs, 2, c) then 1 else 0)
  {
    AskedByThree(pairs, Names(BAND_CFG_MAP), BandControl);
    BandKeySentOnce(pairs, 0, c);
    BandKeySentOnce(pairs, 1, c);
    BandKeySentOnce(pairs, 2, c);
  }

  lemma AfKeysCount(pairs: Pairs, c: Control)
    ensures AskedBy(pairs, Names(AF_PARAMS_MAP), AfControl)[c]
         == (if AfKeyAskedFor(pairs, 0, c) then 1 else 0) + (if AfKeyAskedFor(pairs, 1, c) then 1 else 0)
          + (if AfKeyAskedFor(pairs, 2, c) then 1 else 0)
  {
    AskedByThree(pairs, Names(AF_PARAMS_MAP), AfControl);
    AfKeySentOnce(pairs, 0, c);
    AfKeySentOnce(pairs, 1, c);
    AfKeySentOnce(pairs, 2, c);
  }

  /** What each key of the table asks for. */
  lemma SpacingKey(pairs: Pairs, c: Control)
    ensures BandKeyAskedFor(pairs, 0, c) <==> c.ChSpacing? && BandAskedFor(pairs, c)
  {
  }

  lemma EmphasisKey(pairs: Pairs, c: Control)
    ensures BandKeyAskedFor(pairs, 1, c) <==> c.Emphasis? && BandAskedFor(pairs, c)
  {
  }

  lemma BandNumberKey(pairs: Pairs, c: Control)
    ensures BandKeyAskedFor(pairs, 2, c) <==> c.Band? && BandAskedFor(pairs, c)
  {
  }

  lemma BandKeysAskFor(pairs: Pairs, c: Control)
    ensures BandAskedFor(pairs, c) <==>
      BandKeyAskedFor(pairs, 0, c) || BandKeyAskedFor(pairs, 1, c) || BandKeyAskedFor(pairs, 2, c)
    ensures !(BandKeyAskedFor(pairs, 0, c) && BandKeyAskedFor(pairs, 1, c))
    ensures !(BandKeyAskedFor(pairs, 0, c) && BandKeyAskedFor(pairs, 2, c))
    ensures !(BandKeyAskedFor(pairs, 1, c) && BandKeyAskedFor(pairs, 2, c))
  {
    SpacingKey(pairs, c);
    EmphasisKey(pairs, c);
    BandNumberKey(pairs, c);
    OnlyBandControls(pairs, c);
    hide BandKeyAskedFor, BandAskedFor;
  }

  lemma OnlyBandControls(pairs: Pairs, c: Control)
    ensures BandAskedFor(pairs, c) ==> c.ChSpacing? || c.Emphasis? || c.Band?
  {
  }

  lemma BandSentOnce(pairs: Pairs, c: Control)
    ensures AskedBy(pairs, Names(BAND_CFG_MAP), BandControl)[c] == if BandAskedFor(pairs, c) then 1 else 0
  {
    BandKeysCount(pairs, c);
    BandKeysAskFor(pairs, c);
  }

  lemma AfKeysAskFor(pairs: Pairs, c: Control)
    ensures AfAskedFor(pairs, c) <==>
      AfKeyAskedFor(pairs, 0, c) || AfKeyAskedFor(pairs, 1, c) || AfKeyAskedFor(pairs, 2, c)
    ensures !(AfKeyAskedFor(pairs, 0, c) && AfKeyAskedFor(pairs, 1, c))
    ensures !(AfKeyAskedFor(pairs, 0, c) && AfKeyAskedFor(pairs, 2, c))
    ensures !(AfKeyAskedFor(pairs, 1, c) && AfKeyAskedFor(pairs, 2, c))
  {
  }

  lemma AfSentOnce(pairs: Pairs, c: Control)
    ensures AskedBy(pairs, Names(AF_PARAMS_MAP), AfControl)[c] == if AfAskedFor(pairs, c) then 1 else 0
  {
    AfKeysCount(pairs, c);
    AfKeysAskFor(pairs, c);
  }

  /** Every control is sent once if it is asked for and not at all otherwise. */
  lemma SentOnceIffAskedFor(model: Model, c: Control)
    ensures Wanted(model)[c] == if AskedFor(model, c) then 1 else 0
  {
    AskedByTwo(model, Names(GRPS_MAP), GroupControls);
    assert Find(GRPS_MAP, BAND_GRP) == Some(BAND_CFG) && Find(GRPS_MAP, AF_GRP) == Some(AF_THS);
    if BAND_GRP in model {
      BandSentOnce(model[BAND_GRP], c);
    }
    if AF_GRP in model {
      AfSentOnce(model[AF_GRP], c);
    }
  }

  /** Of a band at most one pair of limits is sent, and which one tells the number in the file. */
  lemma BandsSent(model: Model, low: nat, high: nat)
    ensures Wanted(model)[Band(low, high)] ==
      if "BANDCONFIG" !in model then 0
      else
        var v := Value(model["BANDCONFIG"], "RadioBand");
        if (low, high) == (87500, 108000) then (if v == Some(1) then 1 else 0)
        else if (low, high) == (76000, 108000) then (if v == Some(2) then 1 else 0)
        else if (low, high) == (76000, 90000) then (if v == Some(3) then 1 else 0)
        else 0
  {
    SentOnceIffAskedFor(model, Band(low, high));
  }
}
