/**
 * The configuration of ActionS (`ActionSCfg`): loading it from its JSON
 * section, exporting it as a map, and cloning it. Go's nil slices and nil
 * pointers to slices are both `None`; a present list, even an empty one, is
 * `Some`.
 */
module ActionsCfg {
  import opened Base

  /** The subsystems ActionS holds connections to. */
  datatype Subsystem = CDRs | EEs | Thresholds | Stats | Accounts

  /** utils.MetaInternal: the connection ID that asks for an in-process connection. */
  const MetaInternal: string := "*internal"

  /** The utils.Meta* name of a subsystem. */
  function MetaName(s: Subsystem): (name: string)
    ensures |name| > 0 && name[0] == '*'
  {
    match s
    case CDRs => "*cdrs"
    case EEs => "*ees"
    case Thresholds => "*thresholds"
    case Stats => "*stats"
    case Accounts => "*accounts"
  }

  /** utils.ConcatenatedKey of two keys: joined with ':'. */
  function ConcatenatedKey(a: string, b: string): (k: string)
    ensures |k| == |a| + 1 + |b| && k[..|a|] == a && k[|a|] == ':' && k[|a| + 1..] == b
  {
    a + ":" + b
  }

  /** The name an internal connection to `s` is stored under once loaded. */
  function InternalKey(s: Subsystem): (k: string)
    ensures k != MetaInternal
  {
    var k := ConcatenatedKey(MetaInternal, MetaName(s));
    assert |k| > |MetaInternal|;
    k
  }

  /** Different subsystems get different internal keys. */
  lemma InternalKeyInjective(s: Subsystem, t: Subsystem)
    ensures InternalKey(s) == InternalKey(t) <==> s == t
  {
    if InternalKey(s) == InternalKey(t) {
      assert MetaName(s) == InternalKey(s)[|MetaInternal| + 1..];
      assert MetaName(t) == InternalKey(t)[|MetaInternal| + 1..];
    }
  }

  /** ActionSCfg. */
  datatype ActionSCfg = ActionSCfg(
    enabled: bool,
    cdrsConns: Option<seq<string>>,
    eesConns: Option<seq<string>>,
    thresholdSConns: Option<seq<string>>,
    statSConns: Option<seq<string>>,
    accountSConns: Option<seq<string>>,
    tenants: Option<seq<string>>,
    indexedSelects: bool,
    stringIndexedFields: Option<seq<string>>,
    prefixIndexedFields: Option<seq<string>>,
    suffixIndexedFields: Option<seq<string>>,
    nestedFields: bool)

  /** ActionSJsonCfg: the JSON section, every field optional. */
  datatype ActionSJsonCfg = ActionSJsonCfg(
    enabled: Option<bool>,
    cdrsConns: Option<seq<string>>,
    eesConns: Option<seq<string>>,
    thresholdsConns: Option<seq<string>>,
    statsConns: Option<seq<string>>,
    accountsConns: Option<seq<string>>,
    tenants: Option<seq<string>>,
    indexedSelects: Option<bool>,
    stringIndexedFields: Option<seq<string>>,
    prefixIndexedFields: Option<seq<string>>,
    suffixIndexedFields: Option<seq<string>>,
    nestedFields: Option<bool>)

  /** The connection list of a configuration for one subsystem. */
  function Conns(cfg: ActionSCfg, s: Subsystem): Option<seq<string>>
  {
    match s
    case CDRs => cfg.cdrsConns
    case EEs => cfg.eesConns
    case Thresholds => cfg.thresholdSConns
    case Stats => cfg.statSConns
    case Accounts => cfg.accountSConns
  }

  /** The connection list of a JSON section for one subsystem. */
  function JsonConns(j: ActionSJsonCfg, s: Subsystem): Option<seq<string>>
  {
    match s
    case CDRs => j.cdrsConns
    case EEs => j.eesConns
    case Thresholds => j.thresholdsConns
    case Stats => j.statsConns
    case Accounts => j.accountsConns
  }

  /** The lists that are copied without any rewriting. */
  datatype PlainList = Tenants | StringIndexedFields | PrefixIndexedFields | SuffixIndexedFields

  /** A plain list of a configuration. */
  function List(cfg: ActionSCfg, l: PlainList): Option<seq<string>>
  {
    match l
    case Tenants => cfg.tenants
    case StringIndexedFields => cfg.stringIndexedFields
    case PrefixIndexedFields => cfg.prefixIndexedFields
    case SuffixIndexedFields => cfg.suffixIndexedFields
  }

  /** A plain list of a JSON section. */
  function JsonList(j: ActionSJsonCfg, l: PlainList): Option<seq<string>>
  {
    match l
    case Tenants => j.tenants
    case StringIndexedFields => j.stringIndexedFields
    case PrefixIndexedFields => j.prefixIndexedFields
    case SuffixIndexedFields => j.suffixIndexedFields
  }

  /** Loading one connection ID: `*internal` becomes the internal key of
      the subsystem, every other ID is kept. */
  function QualifyId(id: string, s: Subsystem): (out: string)
    ensures out != MetaInternal
    ensures id != MetaInternal ==> out == id
  {
    if id == MetaInternal then InternalKey(s) else id
  }

  /** Exporting one connection ID: the internal key of the subsystem
      becomes `*internal`, every other ID is kept. */
  function UnqualifyId(id: string, s: Subsystem): (out: string)
    ensures out != InternalKey(s)
    ensures id != InternalKey(s) ==> out == id
  {
    if id == InternalKey(s) then MetaInternal else id
  }

  /** An ID comes back from load and export unless it spelled out the
      internal key, and from export and load unless it was `*internal`. */
  lemma IdRoundTrips(id: string, s: Subsystem)
    ensures UnqualifyId(QualifyId(id, s), s) == id <==> id != InternalKey(s)
    ensures QualifyId(UnqualifyId(id, s), s) == id <==> id != MetaInternal
  {
  }

  /** The load loop over one conns list. */
  function Qualify(conns: seq<string>, s: Subsystem): (out: seq<string>)
    ensures |out| == |conns|
    ensures forall i :: 0 <= i < |conns| ==> out[i] == QualifyId(conns[i], s)
    ensures MetaInternal !in out
  {
    if |conns| == 0 then []
    else [QualifyId(conns[0], s)] + Qualify(conns[1..], s)
  }

  /** The export loop over one conns list. */
  function Unqualify(conns: seq<string>, s: Subsystem): (out: seq<string>)
    ensures |out| == |conns|
    ensures forall i :: 0 <= i < |conns| ==> out[i] == UnqualifyId(conns[i], s)
    ensures InternalKey(s) !in out
  {
    if |conns| == 0 then []
    else [UnqualifyId(conns[0], s)] + Unqualify(conns[1..], s)
  }

  /** Exporting a loaded list gives the list back exactly when it did not
      already hold the internal key itself: such an entry comes back as
      `*internal`. */
  lemma UnqualifyQualify(conns: seq<string>, s: Subsystem)
    ensures Unqualify(Qualify(conns, s), s) == conns <==> InternalKey(s) !in conns
  {
    var back := Unqualify(Qualify(conns, s), s);
    forall i | 0 <= i < |conns|
      ensures back[i] == conns[i] <==> conns[i] != InternalKey(s)
    {
      IdRoundTrips(conns[i], s);
    }
    if InternalKey(s) !in conns {
      assert back == conns;
    }
  }

  /** Loading what an export produced gives the stored list back exactly
      when it held no literal `*internal`. */
  lemma QualifyUnqualify(conns: seq<string>, s: Subsystem)
    ensures Qualify(Unqualify(conns, s), s) == conns <==> MetaInternal !in conns
  {
    var back := Qualify(Unqualify(conns, s), s);
    forall i | 0 <= i < |conns|
      ensures back[i] == conns[i] <==> conns[i] != MetaInternal
    {
      IdRoundTrips(conns[i], s);
    }
    if MetaInternal !in conns {
      assert back == conns;
    }
  }

  /** Loading a list twice changes nothing the first load did not. */
  lemma QualifyIdempotent(conns: seq<string>, s: Subsystem)
    ensures Qualify(Qualify(conns, s), s) == Qualify(conns, s)
  {
  }

  /** One conns field on load: replaced when the JSON gives it, kept
      otherwise. */
  function LoadConns(current: Option<seq<string>>, given: Option<seq<string>>, s: Subsystem): Option<seq<string>>
  {
    if given.Some? then Some(Qualify(given.value, s)) else current
  }

  /** One plain list on load: a copy of the JSON's when given. */
  function LoadList(current: Option<seq<string>>, given: Option<seq<string>>): Option<seq<string>>
  {
    if given.Some? then Some(given.value) else current
  }

  /** One flag on load. */
  function LoadFlag(current: bool, given: Option<bool>): bool
  {
    if given.Some? then given.value else current
  }

  /** ActionSCfg.loadFromJSONCfg. A missing section leaves the configuration
      as it was; otherwise every field the section gives replaces the
      configured one, and every field it leaves out is kept. The five conns
      lists keep their length and order, with `*internal` rewritten to the
      subsystem's internal key; the other lists are copied as they are. The
      error result is always nil and is not modelled. */
  function LoadFromJson(cfg: ActionSCfg, json: Option<ActionSJsonCfg>): (out: ActionSCfg)
    ensures json.None? ==> out == cfg
    ensures json.Some? ==> forall s: Subsystem ::
              && (JsonConns(json.value, s).None? ==> Conns(out, s) == Conns(cfg, s))
              && (JsonConns(json.value, s).Some? ==>
                    && Conns(out, s).Some?
                    && |Conns(out, s).value| == |JsonConns(json.value, s).value|
                    && forall i :: 0 <= i < |Conns(out, s).value| ==>
                         Conns(out, s).value[i] == QualifyId(JsonConns(json.value, s).value[i], s))
    ensures json.Some? ==> forall l: PlainList ::
              List(out, l) == (if JsonList(json.value, l).Some? then JsonList(json.value, l) else List(cfg, l))
    ensures json.Some? ==>
              && (json.value.enabled.Some? ==> out.enabled == json.value.enabled.value)
              && (json.value.enabled.None? ==> out.enabled == cfg.enabled)
              && (json.value.indexedSelects.Some? ==> out.indexedSelects == json.value.indexedSelects.value)
              && (json.value.indexedSelects.None? ==> out.indexedSelects == cfg.indexedSelects)
              && (json.value.nestedFields.Some? ==> out.nestedFields == json.value.nestedFields.value)
              && (json.value.nestedFields.None? ==> out.nestedFields == cfg.nestedFields)
  {
    if json.None? then cfg
    else
      var j := json.value;
      ActionSCfg(
        enabled := LoadFlag(cfg.enabled, j.enabled),
        cdrsConns := LoadConns(cfg.cdrsConns, j.cdrsConns, CDRs),
        eesConns := LoadConns(cfg.eesConns, j.eesConns, EEs),
        thresholdSConns := LoadConns(cfg.thresholdSConns, j.thresholdsConns, Thresholds),
        statSConns := LoadConns(cfg.statSConns, j.statsConns, Stats),
        accountSConns := LoadConns(cfg.accountSConns, j.accountsConns, Accounts),
        tenants := LoadList(cfg.tenants, j.tenants),
        indexedSelects := LoadFlag(cfg.indexedSelects, j.indexedSelects),
        stringIndexedFields := LoadList(cfg.stringIndexedFields, j.stringIndexedFields),
        prefixIndexedFields := LoadList(cfg.prefixIndexedFields, j.prefixIndexedFields),
        suffixIndexedFields := LoadList(cfg.suffixIndexedFields, j.suffixIndexedFields),
        nestedFields := LoadFlag(cfg.nestedFields, j.nestedFields))
  }

  /** Loading the same section twice is loading it once. */
  lemma LoadIdempotent(cfg: ActionSCfg, json: Option<ActionSJsonCfg>)
    ensures LoadFromJson(LoadFromJson(cfg, json), json) == LoadFromJson(cfg, json)
  {
    if json.Some? {
      var j := json.value;
      forall s: Subsystem | JsonConns(j, s).Some? {
        QualifyIdempotent(JsonConns(j, s).value, s);
      }
    }
  }

  /** A value of the exported map: a flag or a list of strings. */
  datatype CfgValue = Flag(b: bool) | Strings(items: seq<string>)

  /** A key of the exported map. */
  datatype CfgKey = EnabledKey | IndexedSelectsKey | NestedFieldsKey | ConnsKey(s: Subsystem) | ListKey(l: PlainList)

  /** The utils.*Cfg string each key stands for. */
  function KeyName(k: CfgKey): string
  {
    match k
    case EnabledKey => "enabled"
    case IndexedSelectsKey => "indexed_selects"
    case NestedFieldsKey => "nested_fields"
    case ConnsKey(CDRs) => "cdrs_conns"
    case ConnsKey(EEs) => "ees_conns"
    case ConnsKey(Thresholds) => "thresholds_conns"
    case ConnsKey(Stats) => "stats_conns"
    case ConnsKey(Accounts) => "accounts_conns"
    case ListKey(Tenants) => "tenants"
    case ListKey(StringIndexedFields) => "string_indexed_fields"
    case ListKey(PrefixIndexedFields) => "prefix_indexed_fields"
    case ListKey(SuffixIndexedFields) => "suffix_indexed_fields"
  }

  /** Every key the map can hold. */
  const AllKeys: set<CfgKey> := {
    EnabledKey, IndexedSelectsKey, NestedFieldsKey,
    ConnsKey(CDRs), ConnsKey(EEs), ConnsKey(Thresholds), ConnsKey(Stats), ConnsKey(Accounts),
    ListKey(Tenants), ListKey(StringIndexedFields), ListKey(PrefixIndexedFields), ListKey(SuffixIndexedFields)}

  /** The key a utils.*Cfg string stands for, if any. */
  function KeyFromName(name: string): (k: Option<CfgKey>)
    ensures k.Some? ==> KeyName(k.value) == name
  {
    if name == "enabled" then Some(EnabledKey)
    else if name == "indexed_selects" then Some(IndexedSelectsKey)
    else if name == "nested_fields" then Some(NestedFieldsKey)
    else if name == "cdrs_conns" then Some(ConnsKey(CDRs))
    else if name == "ees_conns" then Some(ConnsKey(EEs))
    else if name == "thresholds_conns" then Some(ConnsKey(Thresholds))
    else if name == "stats_conns" then Some(ConnsKey(Stats))
    else if name == "accounts_conns" then Some(ConnsKey(Accounts))
    else if name == "tenants" then Some(ListKey(Tenants))
    else if name == "string_indexed_fields" then Some(ListKey(StringIndexedFields))
    else if name == "prefix_indexed_fields" then Some(ListKey(PrefixIndexedFields))
    else if name == "suffix_indexed_fields" then Some(ListKey(SuffixIndexedFields))
    else None
  }

  /** Every key is found again from its string. */
  lemma KeyNameRoundTrip(k: CfgKey)
    ensures KeyFromName(KeyName(k)) == Some(k)
  {
    match k
    case EnabledKey =>
    case IndexedSelectsKey =>
    case NestedFieldsKey =>
    case ConnsKey(s) => ConnsKeyRoundTrip(s);
    case ListKey(l) => ListKeyRoundTrip(l);
  }

  /** The conns keys are found again from their strings. */
  lemma ConnsKeyRoundTrip(s: Subsystem)
    ensures KeyFromName(KeyName(ConnsKey(s))) == Some(ConnsKey(s))
  {
    match s
    case CDRs =>
    case EEs =>
    case Thresholds =>
    case Stats =>
    case Accounts =>
  }

  /** The plain-list keys are found again from their strings. */
  lemma ListKeyRoundTrip(l: PlainList)
    ensures KeyFromName(KeyName(ListKey(l))) == Some(ListKey(l))
  {
    match l
    case Tenants =>
    case StringIndexedFields =>
    case PrefixIndexedFields =>
    case SuffixIndexedFields =>
  }

  /** So the twelve strings are different, and no entry of the Go map
      overwrites another. */
  lemma KeyNamesDistinct(k1: CfgKey, k2: CfgKey)
    ensures KeyName(k1) == KeyName(k2) <==> k1 == k2
  {
    KeyNameRoundTrip(k1);
    KeyNameRoundTrip(k2);
  }

  /** Whether a key belongs in the map of `cfg`. */
  predicate Exported(cfg: ActionSCfg, k: CfgKey)
  {
    match k
    case ConnsKey(s) => Conns(cfg, s).Some?
    case ListKey(l) => List(cfg, l).Some?
    case _ => true
  }

  /** The value a key is exported with. */
  function ExportedValue(cfg: ActionSCfg, k: CfgKey): CfgValue
    requires Exported(cfg, k)
  {
    match k
    case EnabledKey => Flag(cfg.enabled)
    case IndexedSelectsKey => Flag(cfg.indexedSelects)
    case NestedFieldsKey => Flag(cfg.nestedFields)
    case ConnsKey(s) => Strings(Unqualify(Conns(cfg, s).value, s))
    case ListKey(l) => Strings(List(cfg, l).value)
  }

  /** ActionSCfg.AsMapInterface. The three flags are always there; a list
      is there exactly when it is present in the configuration. A conns
      list is exported with its subsystem's internal key turned back into
      `*internal`; the other lists are exported as they are. */
  function AsMapInterface(cfg: ActionSCfg): (m: map<CfgKey, CfgValue>)
    ensures EnabledKey in m && m[EnabledKey] == Flag(cfg.enabled)
    ensures IndexedSelectsKey in m && m[IndexedSelectsKey] == Flag(cfg.indexedSelects)
    ensures NestedFieldsKey in m && m[NestedFieldsKey] == Flag(cfg.nestedFields)
    ensures forall s: Subsystem :: ConnsKey(s) in m <==> Conns(cfg, s).Some?
    ensures forall s: Subsystem :: Conns(cfg, s).Some? ==>
              && m[ConnsKey(s)].Strings?
              && |m[ConnsKey(s)].items| == |Conns(cfg, s).value|
              && forall i :: 0 <= i < |Conns(cfg, s).value| ==>
                   m[ConnsKey(s)].items[i] == UnqualifyId(Conns(cfg, s).value[i], s)
    ensures forall l: PlainList :: ListKey(l) in m <==> List(cfg, l).Some?
    ensures forall l: PlainList :: List(cfg, l).Some? ==> m[ListKey(l)] == Strings(List(cfg, l).value)
  {
    map k | k in AllKeys && Exported(cfg, k) :: ExportedValue(cfg, k)
  }

  /** What a JSON section gives for a conns list is what the map shows for
      it after loading, provided the list did not already spell out the
      internal key. */
  lemma ExportAfterLoad(cfg: ActionSCfg, j: ActionSJsonCfg, s: Subsystem)
    requires JsonConns(j, s).Some? && InternalKey(s) !in JsonConns(j, s).value
    ensures var m := AsMapInterface(LoadFromJson(cfg, Some(j)));
            ConnsKey(s) in m && m[ConnsKey(s)] == Strings(JsonConns(j, s).value)
  {
    UnqualifyQualify(JsonConns(j, s).value, s);
  }

  /** A list that spells out the internal key does not survive the trip:
      that entry is exported as `*internal`. */
  lemma ExportAfterLoadRewrites(cfg: ActionSCfg, j: ActionSJsonCfg, s: Subsystem)
    requires JsonConns(j, s).Some? && InternalKey(s) in JsonConns(j, s).value
    ensures var m := AsMapInterface(LoadFromJson(cfg, Some(j)));
            ConnsKey(s) in m && m[ConnsKey(s)] != Strings(JsonConns(j, s).value)
  {
    UnqualifyQualify(JsonConns(j, s).value, s);
  }

  /** The JSON section that sets every field to what the map of `cfg`
      shows. */
  function ExportAsJson(cfg: ActionSCfg): (j: ActionSJsonCfg)
    ensures j.enabled == Some(cfg.enabled) && j.indexedSelects == Some(cfg.indexedSelects)
    ensures j.nestedFields == Some(cfg.nestedFields)
    ensures forall l: PlainList :: JsonList(j, l) == List(cfg, l)
  {
    var m := AsMapInterface(cfg);
    ActionSJsonCfg(
      enabled := Some(m[EnabledKey].b),
      cdrsConns := ShownConns(cfg, CDRs),
      eesConns := ShownConns(cfg, EEs),
      thresholdsConns := ShownConns(cfg, Thresholds),
      statsConns := ShownConns(cfg, Stats),
      accountsConns := ShownConns(cfg, Accounts),
      tenants := ShownList(cfg, Tenants),
      indexedSelects := Some(m[IndexedSelectsKey].b),
      stringIndexedFields := ShownList(cfg, StringIndexedFields),
      prefixIndexedFields := ShownList(cfg, PrefixIndexedFields),
      suffixIndexedFields := ShownList(cfg, SuffixIndexedFields),
      nestedFields := Some(m[NestedFieldsKey].b))
  }

  /** The conns lists of the exported JSON are the exported lists. */
  lemma ExportedConns(cfg: ActionSCfg, s: Subsystem)
    ensures JsonConns(ExportAsJson(cfg), s) == ShownConns(cfg, s)
    ensures JsonConns(ExportAsJson(cfg), s).Some? <==> Conns(cfg, s).Some?
    ensures Conns(cfg, s).Some? ==> JsonConns(ExportAsJson(cfg), s).value == Unqualify(Conns(cfg, s).value, s)
  {
    match s
    case CDRs =>
    case EEs =>
    case Thresholds =>
    case Stats =>
    case Accounts =>
  }

  /** The conns list the map of `cfg` shows for `s`, if any. */
  function ShownConns(cfg: ActionSCfg, s: Subsystem): (o: Option<seq<string>>)
    ensures o.Some? <==> Conns(cfg, s).Some?
    ensures o.Some? ==> o.value == Unqualify(Conns(cfg, s).value, s)
  {
    var m := AsMapInterface(cfg);
    if ConnsKey(s) in m then Some(m[ConnsKey(s)].items) else None
  }

  /** The plain list the map of `cfg` shows under `l`, if any. */
  function ShownList(cfg: ActionSCfg, l: PlainList): (o: Option<seq<string>>)
    ensures o == List(cfg, l)
  {
    var m := AsMapInterface(cfg);
    if ListKey(l) in m then Some(m[ListKey(l)].items) else None
  }

  /** None of the conns lists of `cfg` holds a literal `*internal`. */
  predicate NoLiteralInternal(cfg: ActionSCfg)
  {
    forall s: Subsystem :: Conns(cfg, s).Some? ==> MetaInternal !in Conns(cfg, s).value
  }

  /** Every list missing from `cfg` is missing from `base` as well. */
  predicate AbsentAlike(base: ActionSCfg, cfg: ActionSCfg)
  {
    && (forall s: Subsystem :: Conns(cfg, s).None? ==> Conns(base, s).None?)
    && (forall l: PlainList :: List(cfg, l).None? ==> List(base, l).None?)
  }

  /** One conns list survives export and load exactly when it holds no
      literal `*internal`, or, when it is missing, when `base` lacks it too. */
  lemma ConnsAfterExport(base: ActionSCfg, cfg: ActionSCfg, s: Subsystem)
    ensures var out := LoadFromJson(base, Some(ExportAsJson(cfg)));
            Conns(out, s) == Conns(cfg, s) <==>
              if Conns(cfg, s).Some? then MetaInternal !in Conns(cfg, s).value else Conns(base, s).None?
  {
    ExportedConns(cfg, s);
    if Conns(cfg, s).Some? {
      QualifyUnqualify(Conns(cfg, s).value, s);
    }
  }

  /** A plain list always survives export and load, except a missing one
      that `base` has. */
  lemma ListAfterExport(base: ActionSCfg, cfg: ActionSCfg, l: PlainList)
    ensures var out := LoadFromJson(base, Some(ExportAsJson(cfg)));
            List(out, l) == List(cfg, l) <==> List(cfg, l).Some? || List(base, l).None?
  {
  }

  /** Loading the export of a configuration into `base` restores it
      exactly when none of its conns lists holds a literal `*internal` and
      every list it lacks (which the export leaves out) is lacking in
      `base` too. */
  lemma LoadAfterExport(base: ActionSCfg, cfg: ActionSCfg)
    ensures LoadFromJson(base, Some(ExportAsJson(cfg))) == cfg <==> NoLiteralInternal(cfg) && AbsentAlike(base, cfg)
  {
    var out := LoadFromJson(base, Some(ExportAsJson(cfg)));
    forall s: Subsystem {
      ConnsAfterExport(base, cfg, s);
    }
    forall l: PlainList {
      ListAfterExport(base, cfg, l);
    }
    if NoLiteralInternal(cfg) && AbsentAlike(base, cfg) {
      assert Conns(out, CDRs) == Conns(cfg, CDRs) && Conns(out, EEs) == Conns(cfg, EEs);
      assert Conns(out, Thresholds) == Conns(cfg, Thresholds) && Conns(out, Stats) == Conns(cfg, Stats);
      assert Conns(out, Accounts) == Conns(cfg, Accounts);
      assert List(out, Tenants) == List(cfg, Tenants) && List(out, StringIndexedFields) == List(cfg, StringIndexedFields);
      assert List(out, PrefixIndexedFields) == List(cfg, PrefixIndexedFields);
      assert List(out, SuffixIndexedFields) == List(cfg, SuffixIndexedFields);
    }
  }

  /** ActionSCfg.Clone: a deep copy, field for field, with a nil list
      staying nil and a present (even empty) list staying present. */
  function Clone(cfg: ActionSCfg): (c: ActionSCfg)
    ensures c == cfg
  {
    ActionSCfg(
      enabled := cfg.enabled,
      cdrsConns := CopyList(cfg.cdrsConns),
      eesConns := CopyList(cfg.eesConns),
      thresholdSConns := CopyList(cfg.thresholdSConns),
      statSConns := CopyList(cfg.statSConns),
      accountSConns := CopyList(cfg.accountSConns),
      tenants := CopyList(cfg.tenants),
      indexedSelects := cfg.indexedSelects,
      stringIndexedFields := CopyList(cfg.stringIndexedFields),
      prefixIndexedFields := CopyList(cfg.prefixIndexedFields),
      suffixIndexedFields := CopyList(cfg.suffixIndexedFields),
      nestedFields := cfg.nestedFields)
  }

  /** The copy loop of Clone over one list: a nil list stays nil, and a
      present one is copied item by item into a slice of its length. */
  function CopyList(l: Option<seq<string>>): (c: Option<seq<string>>)
    ensures c == l
  {
    if l.None? then None
    else
      var copy := seq(|l.value|, i requires 0 <= i < |l.value| => l.value[i]);
      assert copy == l.value;
      Some(copy)
  }
}
