/** The daemon's configuration: a list of keys and values that is saved as JSON and loaded back. */
module SysConf {
  import opened Bytes
  import opened JsonValue
  import opened StringLiteral
  import opened Numbers
  import opened JsonText
  import opened RoundTrip
  import G = Grammar
  import C = Compare

  type Entry = (Text, Text)

  // ---------- keys and values ----------

  /** The value of the first entry with that key. */
  function Lookup(entries: seq<Entry>, key: Text): Option<Text> {
    if entries == [] then None
    else if entries[0].0 == key then Some(entries[0].1) else Lookup(entries[1..], key)
  }

  /** The first entry with that key gets the value; without one, an entry is put in front. */
  function Updated(entries: seq<Entry>, key: Text, value: Text): seq<Entry> {
    if Lookup(entries, key).None? then [(key, value)] + entries else Overwritten(entries, key, value)
  }

  function Overwritten(entries: seq<Entry>, key: Text, value: Text): (r: seq<Entry>)
    ensures |r| == |entries|
  {
    if entries == [] then []
    else if entries[0].0 == key then [(key, value)] + entries[1..]
    else [entries[0]] + Overwritten(entries[1..], key, value)
  }

  predicate DistinctKeys(entries: seq<Entry>) {
    entries == [] || (Lookup(entries[1..], entries[0].0).None? && DistinctKeys(entries[1..]))
  }

  function Reversed(entries: seq<Entry>): seq<Entry> {
    if entries == [] then [] else Reversed(entries[1..]) + [entries[0]]
  }

  /** A key that was set has its new value, and every other key the value it had. */
  lemma {:induction false} UpdatedLookup(entries: seq<Entry>, key: Text, value: Text, k: Text)
    ensures Lookup(Updated(entries, key, value), k) == if k == key then Some(value) else Lookup(entries, k)
  {
    if Lookup(entries, key).None? {
      assert ([(key, value)] + entries)[1..] == entries;
    } else {
      OverwrittenLookup(entries, key, value, k);
    }
  }

  lemma {:induction false} OverwrittenLookup(entries: seq<Entry>, key: Text, value: Text, k: Text)
    ensures Lookup(Overwritten(entries, key, value), k)
            == if k == key && Lookup(entries, key).Some? then Some(value) else Lookup(entries, k)
  {
    if entries != [] && entries[0].0 != key {
      OverwrittenLookup(entries[1..], key, value, k);
    }
  }

  lemma {:induction false} OverwrittenDistinct(entries: seq<Entry>, key: Text, value: Text)
    requires DistinctKeys(entries)
    ensures DistinctKeys(Overwritten(entries, key, value))
  {
    if entries != [] && entries[0].0 != key {
      OverwrittenDistinct(entries[1..], key, value);
      OverwrittenLookup(entries[1..], key, value, entries[0].0);
    }
  }

  /** sys_conf_set keeps the keys distinct. */
  lemma {:induction false} UpdatedDistinct(entries: seq<Entry>, key: Text, value: Text)
    requires DistinctKeys(entries)
    ensures DistinctKeys(Updated(entries, key, value))
  {
    if Lookup(entries, key).None? {
      assert ([(key, value)] + entries)[1..] == entries;
    } else {
      OverwrittenDistinct(entries, key, value);
    }
  }

  lemma {:induction false} LookupInSum(a: seq<Entry>, b: seq<Entry>, key: Text)
    ensures Lookup(a + b, key) == if Lookup(a, key).Some? then Lookup(a, key) else Lookup(b, key)
  {
    if a == [] {
      assert a + b == b;
    } else {
      assert (a + b)[1..] == a[1..] + b;
      LookupInSum(a[1..], b, key);
    }
  }

  /** The value of the last entry with that key. */
  function LastOf(entries: seq<Entry>, key: Text): Option<Text> {
    if entries == [] then None
    else
      var later := LastOf(entries[1..], key);
      if later.None? && entries[0].0 == key then Some(entries[0].1) else later
  }

  /** In the reversed list a lookup finds the last entry. */
  lemma {:induction false} ReversedLookup(entries: seq<Entry>, key: Text)
    ensures Lookup(Reversed(entries), key) == LastOf(entries, key)
  {
    if entries != [] {
      ReversedLookup(entries[1..], key);
      LookupInSum(Reversed(entries[1..]), [entries[0]], key);
    }
  }

  function Times(entries: seq<Entry>, key: Text): nat {
    if entries == [] then 0 else (if entries[0].0 == key then 1 else 0) + Times(entries[1..], key)
  }

  lemma {:induction false} FoundIsCounted(entries: seq<Entry>, key: Text)
    ensures Lookup(entries, key).Some? <==> Times(entries, key) > 0
    ensures LastOf(entries, key).Some? <==> Times(entries, key) > 0
  {
    if entries != [] { FoundIsCounted(entries[1..], key); }
  }

  /** A key that is there once has one value. */
  lemma {:induction false} FoundOnce(entries: seq<Entry>, key: Text)
    requires Times(entries, key) <= 1
    ensures LastOf(entries, key) == Lookup(entries, key)
  {
    if entries != [] {
      FoundOnce(entries[1..], key);
      FoundIsCounted(entries[1..], key);
    }
  }

  lemma {:induction false} DistinctIsOnce(entries: seq<Entry>, key: Text)
    requires DistinctKeys(entries)
    ensures Times(entries, key) <= 1
  {
    if entries != [] {
      DistinctIsOnce(entries[1..], key);
      FoundIsCounted(entries[1..], key);
    }
  }

  /** Setting a key that is there more than once leaves its last entry; it never makes a key repeated. */
  lemma {:induction false} UpdatedRepeats(entries: seq<Entry>, key: Text, value: Text, k: Text)
    ensures Times(Updated(entries, key, value), k) >= 2 <==> Times(entries, k) >= 2
    ensures Times(entries, k) >= 2 ==> LastOf(Updated(entries, key, value), k) == LastOf(entries, k)
  {
    FoundIsCounted(entries, key);
    FoundIsCounted(entries, k);
    if Lookup(entries, key).None? {
      assert ([(key, value)] + entries)[1..] == entries;
    } else {
      OverwrittenRepeats(entries, key, value, k);
    }
  }

  lemma {:induction false} OverwrittenRepeats(entries: seq<Entry>, key: Text, value: Text, k: Text)
    ensures Times(Overwritten(entries, key, value), k) == Times(entries, k)
    ensures Times(entries, k) >= 2 || k != key ==> LastOf(Overwritten(entries, key, value), k) == LastOf(entries, k)
  {
    if entries != [] {
      FoundIsCounted(entries[1..], k);
      if entries[0].0 != key { OverwrittenRepeats(entries[1..], key, value, k); }
    }
  }

  /** The list after a run of sys_conf_set on the list `start`. */
  function SetAll(start: seq<Entry>, updates: seq<Entry>): seq<Entry> {
    if updates == [] then start
    else var last := updates[|updates| - 1]; Updated(SetAll(start, updates[..|updates| - 1]), last.0, last.1)
  }

  lemma {:induction false} SetAllDistinct(start: seq<Entry>, updates: seq<Entry>)
    requires DistinctKeys(start)
    ensures DistinctKeys(SetAll(start, updates))
  {
    if updates != [] {
      var last := updates[|updates| - 1];
      SetAllDistinct(start, updates[..|updates| - 1]);
      UpdatedDistinct(SetAll(start, updates[..|updates| - 1]), last.0, last.1);
    }
  }

  lemma {:induction false} SetAllRepeats(start: seq<Entry>, updates: seq<Entry>, k: Text)
    ensures Times(SetAll(start, updates), k) >= 2 <==> Times(start, k) >= 2
    ensures Times(start, k) >= 2 ==> LastOf(SetAll(start, updates), k) == LastOf(start, k)
  {
    if updates != [] {
      var last := updates[|updates| - 1];
      SetAllRepeats(start, updates[..|updates| - 1], k);
      UpdatedRepeats(SetAll(start, updates[..|updates| - 1]), last.0, last.1, k);
    }
  }

  /** The value of the last update with that key. */
  function LastSet(updates: seq<Entry>, key: Text): Option<Text> {
    if updates == [] then None
    else
      var last := updates[|updates| - 1];
      if last.0 == key then Some(last.1) else LastSet(updates[..|updates| - 1], key)
  }

  /** After any run of sys_conf_set a lookup gives the last value set, or what it gave before. */
  lemma {:induction false} LookupIsLastSet(start: seq<Entry>, updates: seq<Entry>, key: Text)
    ensures Lookup(SetAll(start, updates), key)
            == if LastSet(updates, key).Some? then LastSet(updates, key) else Lookup(start, key)
  {
    if updates != [] {
      var last := updates[|updates| - 1];
      LookupIsLastSet(start, updates[..|updates| - 1], key);
      UpdatedLookup(SetAll(start, updates[..|updates| - 1]), last.0, last.1, key);
    }
  }

  // ---------- the saved document ----------

  const FIX_CONFIG: Text := [102, 105, 120, 46, 99, 111, 110, 102, 105, 103] // fix.config
  const DYN_CONFIG: Text := [100, 121, 110, 46, 99, 111, 110, 102, 105, 103] // dyn.config
  const DRV_CONF: Text := [100, 114, 118, 46, 99, 111, 110, 102] // drv.conf
  const HWMON_CONF: Text := [104, 119, 109, 111, 110, 46, 99, 111, 110, 102] // hwmon.conf
  const DEVM_CONF: Text := [100, 101, 118, 109, 46, 99, 111, 110, 102] // devm.conf
  const UPCFG_CONF: Text := [117, 112, 99, 102, 103, 46, 99, 111, 110, 102] // upcfg.conf
  const UDS_FILE: Text := [117, 100, 115, 46, 102, 105, 108, 101] // uds.file
  const XLOG_PATH: Text := [120, 108, 111, 103, 46, 112, 97, 116, 104] // xlog.path
  const CUSTOMER_NAME: Text := [99, 117, 115, 116, 111, 109, 101, 114, 46, 110, 97, 109, 101] // customer.name
  const CUSTOMER_CODE: Text := [99, 117, 115, 116, 111, 109, 101, 114, 46, 99, 111, 100, 101] // customer.code

  /** The fields of SYS_CONF_PARAM that are saved; a NULL pointer is None. */
  datatype Fixed = Fixed(
    drvConf: Option<Text>, hwmonConf: Option<Text>, devmConf: Option<Text>, upcfgConf: Option<Text>,
    udsFile: Option<Text>, xlogPath: Option<Text>, customerName: Option<Text>, customerId: int)

  const ZEROED: Fixed := Fixed(None, None, None, None, None, None, None, 0)

  /** cJSON_AddItemToObject of cJSON_CreateString, which adds nothing for a NULL pointer. */
  function Field(name: Text, value: Option<Text>, rest: Items): Items {
    if value.None? then rest else Cons(Some(name), String(value), rest)
  }

  function FixedItems(f: Fixed): Items {
    Field(DRV_CONF, f.drvConf, Field(HWMON_CONF, f.hwmonConf, Field(DEVM_CONF, f.devmConf,
      Field(UPCFG_CONF, f.upcfgConf, Field(UDS_FILE, f.udsFile, Field(XLOG_PATH, f.xlogPath,
        Field(CUSTOMER_NAME, f.customerName,
          Cons(Some(CUSTOMER_CODE), Number(f.customerId as real, Saturate(f.customerId as real)), Nil))))))))
  }

  function EntryItems(entries: seq<Entry>): Items {
    if entries == [] then Nil
    else Cons(Some(entries[0].0), String(Some(entries[0].1)), EntryItems(entries[1..]))
  }

  /** The tree daemon_store_script builds. */
  function Document(f: Fixed, entries: seq<Entry>): Json {
    Object(Cons(Some(FIX_CONFIG), Object(FixedItems(f)), Cons(Some(DYN_CONFIG), Object(EntryItems(entries)), Nil)))
  }

  // ---------- loading ----------

  function ChildrenOf(t: Json): Items {
    match t case Array(items) => items case Object(items) => items case _ => Nil
  }

  /** valuestring. */
  function TextOf(v: Json): Option<Text> {
    match v case String(t) => t case Raw(t) => t case _ => None
  }

  /** valueint. */
  function IntOf(v: Json): int {
    match v case Number(_, n) => n case True => 1 case _ => 0
  }

  /** One turn of the first loop of daemon_load_script. */
  function SetField(f: Fixed, name: Text, v: Json): Fixed {
    if name == DRV_CONF then f.(drvConf := TextOf(v))
    else if name == HWMON_CONF then f.(hwmonConf := TextOf(v))
    else if name == DEVM_CONF then f.(devmConf := TextOf(v))
    else if name == UPCFG_CONF then f.(upcfgConf := TextOf(v))
    else if name == UDS_FILE then f.(udsFile := TextOf(v))
    else if name == XLOG_PATH then f.(xlogPath := TextOf(v))
    else if name == CUSTOMER_NAME then f.(customerName := TextOf(v))
    else if name == CUSTOMER_CODE then f.(customerId := IntOf(v))
    else f
  }

  function LoadFixed(items: Items, f: Fixed): Fixed {
    match items
    case Nil => f
    case Cons(n, v, tail) => LoadFixed(tail, if n.Some? then SetField(f, n.value, v) else f)
  }

  /** A string value as it is; any other one is replaced by the decimal text of its integer. */
  function EntryOf(name: Text, v: Json): Entry {
    (name, if TextOf(v).Some? then TextOf(v).value else DecimalText(IntOf(v)))
  }

  /** The second loop: each entry is put in front, until malloc gives no node any more. */
  function LoadEntries(items: Items, entries: seq<Entry>, room: nat): seq<Entry> {
    match items
    case Nil => entries
    case Cons(None, _, tail) => LoadEntries(tail, entries, room)
    case Cons(Some(n), v, tail) =>
      if room == 0 then entries else LoadEntries(tail, [EntryOf(n, v)] + entries, room - 1)
  }

  datatype Conf = Conf(fixed: Fixed, entries: seq<Entry>)

  /** The children of the first child named so. */
  function Section(root: Json, name: Text): Option<Items> {
    var found := C.Find(ChildrenOf(root), name, false);
    if found.None? then None else Some(ChildrenOf(found.value))
  }

  function LoadedSections(fixed: Option<Items>, dynamic: Option<Items>, room: nat): Conf {
    if fixed.None? then Conf(ZEROED, [])
    else Conf(LoadFixed(fixed.value, ZEROED), if dynamic.None? then [] else LoadEntries(dynamic.value, [], room))
  }

  /** The part of daemon_load_script that reads the parsed tree, with memory for `room` nodes. */
  function LoadedRoot(root: Json, room: nat): Conf {
    LoadedSections(Section(root, FIX_CONFIG), Section(root, DYN_CONFIG), room)
  }

  /** daemon_load_script: what the text of the file makes of the configuration `before`. */
  function Loaded(text: Text, before: Conf, room: nat): Conf {
    if |text| < 2 then before
    else match G.ParseText(text + [NUL], false) case Error(_) => before case Done(root, _) => LoadedRoot(root, room)
  }

  // ---------- saving and loading back ----------

  function Least(m: nat, n: nat): nat { if m < n then m else n }

  lemma {:induction false} EntriesComeBackReversed(entries: seq<Entry>, before: seq<Entry>, room: nat)
    ensures LoadEntries(EntryItems(entries), before, room) == Reversed(entries[..Least(room, |entries|)]) + before
    decreases |entries|
  {
    if entries != [] && room > 0 {
      var (key, value) := entries[0];
      var rest, n := entries[1..], Least(room, |entries|);
      assert EntryOf(key, String(Some(value))) == entries[0];
      EntriesComeBackReversed(rest, [entries[0]] + before, room - 1);
      assert entries[..n][1..] == rest[..n - 1];
      assert Reversed(rest[..n - 1]) + ([entries[0]] + before) == Reversed(entries[..n]) + before;
    }
  }

  lemma NamesDiffer()
    ensures DRV_CONF[0] == 100 && DRV_CONF[1] == 114 && |DRV_CONF| == 8
    ensures HWMON_CONF[0] == 104 && |HWMON_CONF| == 10
    ensures DEVM_CONF[0] == 100 && DEVM_CONF[1] == 101 && |DEVM_CONF| == 9
    ensures UPCFG_CONF[0] == 117 && |UPCFG_CONF| == 10
    ensures UDS_FILE[0] == 117 && |UDS_FILE| == 8
    ensures XLOG_PATH[0] == 120 && |XLOG_PATH| == 9
    ensures |CUSTOMER_NAME| == 13 && CUSTOMER_NAME[9] == 110
    ensures |CUSTOMER_CODE| == 13 && CUSTOMER_CODE[9] == 99
  {
  }

  lemma {:induction false} FieldComesBack(name: Text, value: Option<Text>, rest: Items, f: Fixed, g: Fixed)
    requires g == if value.Some? then SetField(f, name, String(value)) else f
    ensures LoadFixed(Field(name, value, rest), f) == LoadFixed(rest, g)
  {
  }

  lemma FixedComesBack(f: Fixed)
    requires INT_MIN <= f.customerId <= INT_MAX
    ensures LoadFixed(FixedItems(f), ZEROED) == f
  {
    NamesDiffer();
    SaturateWhole(f.customerId);
    var last := Cons(Some(CUSTOMER_CODE), Number(f.customerId as real, Saturate(f.customerId as real)), Nil);
    var i7 := Field(CUSTOMER_NAME, f.customerName, last);
    var i6 := Field(XLOG_PATH, f.xlogPath, i7);
    var i5 := Field(UDS_FILE, f.udsFile, i6);
    var i4 := Field(UPCFG_CONF, f.upcfgConf, i5);
    var i3 := Field(DEVM_CONF, f.devmConf, i4);
    var i2 := Field(HWMON_CONF, f.hwmonConf, i3);
    var f1 := ZEROED.(drvConf := f.drvConf);
    var f2 := f1.(hwmonConf := f.hwmonConf);
    var f3 := f2.(devmConf := f.devmConf);
    var f4 := f3.(upcfgConf := f.upcfgConf);
    var f5 := f4.(udsFile := f.udsFile);
    var f6 := f5.(xlogPath := f.xlogPath);
    var f7 := f6.(customerName := f.customerName);
    FieldComesBack(DRV_CONF, f.drvConf, i2, ZEROED, f1);
    FieldComesBack(HWMON_CONF, f.hwmonConf, i3, f1, f2);
    FieldComesBack(DEVM_CONF, f.devmConf, i4, f2, f3);
    FieldComesBack(UPCFG_CONF, f.upcfgConf, i5, f3, f4);
    FieldComesBack(UDS_FILE, f.udsFile, i6, f4, f5);
    FieldComesBack(XLOG_PATH, f.xlogPath, i7, f5, f6);
    FieldComesBack(CUSTOMER_NAME, f.customerName, last, f6, f7);
    assert LoadFixed(last, f7) == LoadFixed(Nil, SetField(f7, CUSTOMER_CODE, last.head));
  }

  lemma {:induction false} EntriesAreFaithful(entries: seq<Entry>)
    ensures AllFaithful(EntryItems(entries), true) && NestingOf(EntryItems(entries)) == 0
  {
    if entries != [] { EntriesAreFaithful(entries[1..]); }
  }

  lemma {:induction false} FieldIsFaithful(name: Text, value: Option<Text>, rest: Items)
    requires AllFaithful(rest, true) && NestingOf(rest) == 0
    ensures AllFaithful(Field(name, value, rest), true) && NestingOf(Field(name, value, rest)) == 0
  {
  }

  lemma FixedIsFaithful(f: Fixed)
    requires INT_MIN <= f.customerId <= INT_MAX
    ensures AllFaithful(FixedItems(f), true) && NestingOf(FixedItems(f)) == 0
  {
    var last := Cons(Some(CUSTOMER_CODE), Number(f.customerId as real, Saturate(f.customerId as real)), Nil);
    var i7 := Field(CUSTOMER_NAME, f.customerName, last);
    var i6 := Field(XLOG_PATH, f.xlogPath, i7);
    var i5 := Field(UDS_FILE, f.udsFile, i6);
    var i4 := Field(UPCFG_CONF, f.upcfgConf, i5);
    var i3 := Field(DEVM_CONF, f.devmConf, i4);
    var i2 := Field(HWMON_CONF, f.hwmonConf, i3);
    FieldIsFaithful(CUSTOMER_NAME, f.customerName, last);
    FieldIsFaithful(XLOG_PATH, f.xlogPath, i7);
    FieldIsFaithful(UDS_FILE, f.udsFile, i6);
    FieldIsFaithful(UPCFG_CONF, f.upcfgConf, i5);
    FieldIsFaithful(DEVM_CONF, f.devmConf, i4);
    FieldIsFaithful(HWMON_CONF, f.hwmonConf, i3);
    FieldIsFaithful(DRV_CONF, f.drvConf, i2);
  }

  lemma {:induction false} FoundBehind(m: Text, v: Json, n: Text, w: Json)
    requires m != [] && n != [] && Lower(m[0]) != Lower(n[0])
    ensures var items := Cons(Some(m), v, Cons(Some(n), w, Nil));
      C.Find(items, m, false) == Some(v) && C.Find(items, n, false) == Some(w)
  {
    assert LowerText(m)[0] != LowerText(n)[0];
    assert C.Find(Cons(Some(n), w, Nil), n, false) == Some(w);
  }

  /** What daemon_store_script writes to the file. */
  function Saved(conf: Conf): Text { Rendered(Document(conf.fixed, conf.entries), true, 0) }

  lemma {:induction false} SectionIsFound(items: Items, name: Text, found: Items)
    requires C.Find(items, name, false) == Some(Object(found))
    ensures Section(Object(items), name) == Some(found)
  {
  }

  lemma DocumentIsRead(conf: Conf, room: nat)
    requires INT_MIN <= conf.fixed.customerId <= INT_MAX
    ensures LoadedRoot(Document(conf.fixed, conf.entries), room)
            == Conf(conf.fixed, Reversed(conf.entries[..Least(room, |conf.entries|)]))
  {
    var fixed, dynamic := FixedItems(conf.fixed), EntryItems(conf.entries);
    FoundBehind(FIX_CONFIG, Object(fixed), DYN_CONFIG, Object(dynamic));
    SectionIsFound(Document(conf.fixed, conf.entries).items, FIX_CONFIG, fixed);
    SectionIsFound(Document(conf.fixed, conf.entries).items, DYN_CONFIG, dynamic);
    FixedComesBack(conf.fixed);
    EntriesComeBackReversed(conf.entries, [], room);
    var read := Reversed(conf.entries[..Least(room, |conf.entries|)]);
    assert read + [] == read;
  }

  lemma DocumentParsesBack(conf: Conf)
    requires INT_MIN <= conf.fixed.customerId <= INT_MAX
    ensures G.ParseText(Saved(conf) + [NUL], false) == Done(Document(conf.fixed, conf.entries), |Saved(conf)|)
  {
    DocumentIsFaithful(conf);
    FaithfulTextComesBack(Document(conf.fixed, conf.entries), true, false);
  }

  lemma DocumentIsFaithful(conf: Conf)
    requires INT_MIN <= conf.fixed.customerId <= INT_MAX
    ensures Faithful(Document(conf.fixed, conf.entries)) && Nesting(Document(conf.fixed, conf.entries)) <= G.NESTING_LIMIT
  {
    FixedIsFaithful(conf.fixed);
    EntriesAreFaithful(conf.entries);
    var items := Cons(Some(DYN_CONFIG), Object(EntryItems(conf.entries)), Nil);
    assert NestingOf(items) == 1 && AllFaithful(items, true);
    assert NestingOf(Cons(Some(FIX_CONFIG), Object(FixedItems(conf.fixed)), items)) == 1;
  }

  /** For every key the first and the last entry have the same value. */
  ghost predicate RepeatsAgree(entries: seq<Entry>) {
    forall key :: LastOf(entries, key) == Lookup(entries, key)
  }

  ghost predicate SameLookups(a: seq<Entry>, b: seq<Entry>) {
    forall key :: Lookup(a, key) == Lookup(b, key)
  }

  /**
   * The fixed fields come back as they were and the entries in reverse, as many as there is memory for.
   * If they all come back, every key keeps its value exactly if no two entries of a key disagree.
   */
  lemma SavedComesBack(conf: Conf, before: Conf, room: nat)
    requires INT_MIN <= conf.fixed.customerId <= INT_MAX
    ensures var loaded := Loaded(Saved(conf), before, room);
      && loaded == Conf(conf.fixed, Reversed(conf.entries[..Least(room, |conf.entries|)]))
      && (room >= |conf.entries| ==>
            (SameLookups(loaded.entries, conf.entries) <==> RepeatsAgree(conf.entries)))
  {
    SavedIsLoaded(conf, before, room);
    if room >= |conf.entries| {
      assert conf.entries[..|conf.entries|] == conf.entries;
      ReversalIsSeen(conf.entries);
    }
  }

  lemma {:induction false} ReversalIsSeen(entries: seq<Entry>)
    ensures SameLookups(Reversed(entries), entries) <==> RepeatsAgree(entries)
  {
    forall key ensures Lookup(Reversed(entries), key) == LastOf(entries, key) {
      ReversedLookup(entries, key);
    }
  }

  lemma SavedIsLoaded(conf: Conf, before: Conf, room: nat)
    requires INT_MIN <= conf.fixed.customerId <= INT_MAX
    ensures Loaded(Saved(conf), before, room) == Conf(conf.fixed, Reversed(conf.entries[..Least(room, |conf.entries|)]))
  {
    DocumentParsesBack(conf);
    TextIsLong(Document(conf.fixed, conf.entries));
    DocumentIsRead(conf, room);
  }

  lemma {:induction false} TextIsLong(t: Json)
    requires t.Object?
    ensures |Rendered(t, true, 0)| >= 2
  {
  }

  /** sys_conf_set keeps keys distinct, and then nothing disagrees. */
  lemma {:induction false} DistinctAgree(entries: seq<Entry>)
    requires DistinctKeys(entries)
    ensures RepeatsAgree(entries)
  {
    forall key ensures LastOf(entries, key) == Lookup(entries, key) {
      DistinctIsOnce(entries, key);
      FoundOnce(entries, key);
    }
  }

  /**
   * After any run of sys_conf_set on any list, saving and loading gives a key the value it was set to last
   * or had, unless the list at the start held the key more than once; then its last value there comes back.
   */
  lemma {:induction false} SetSavedAndLoaded(fixed: Fixed, start: seq<Entry>, updates: seq<Entry>, before: Conf, room: nat, key: Text)
    requires INT_MIN <= fixed.customerId <= INT_MAX && room >= |SetAll(start, updates)|
    ensures Lookup(Loaded(Saved(Conf(fixed, SetAll(start, updates))), before, room).entries, key)
            == if Times(start, key) >= 2 then LastOf(start, key)
               else if LastSet(updates, key).Some? then LastSet(updates, key) else Lookup(start, key)
  {
    var entries := SetAll(start, updates);
    SavedIsLoaded(Conf(fixed, entries), before, room);
    assert entries[..|entries|] == entries;
    ReversedLookup(entries, key);
    SetAllRepeats(start, updates, key);
    if Times(start, key) < 2 { FoundOnce(entries, key); }
    LookupIsLastSet(start, updates, key);
  }

  /** A file that holds a key twice: the value read from it is another one after saving and loading. */
  lemma RepeatedKeyChanges(fixed: Fixed, before: Conf)
    requires INT_MIN <= fixed.customerId <= INT_MAX
    ensures var key, one, two := [97], [49], [50];
      var first := Loaded(Saved(Conf(fixed, [(key, one), (key, two)])), before, 2);
      var second := Loaded(Saved(first), before, 2);
      Lookup(first.entries, key) == Some(two) && Lookup(second.entries, key) == Some(one)
  {
    var e, f := ([97], [49]), ([97], [50]);
    assert Reversed([f]) == [f] && Reversed([e, f]) == [f, e];
    assert Reversed([e]) == [e] && Reversed([f, e]) == [e, f];
    assert [e, f][..2] == [e, f] && [f, e][..2] == [f, e];
    SavedIsLoaded(Conf(fixed, [e, f]), before, 2);
    SavedIsLoaded(Conf(fixed, [f, e]), before, 2);
  }
}
