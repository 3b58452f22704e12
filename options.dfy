/**
 * The plugin's settings record and `get_all_options`: loading the record
 * from the host's option store, filling in defaults for missing fields and
 * asking the host to persist the result.
 *
 * The host's option store (`get_option` / `update_option`) is a map from
 * option name to value given as a parameter; a write the plugin asks for is
 * returned as an `OptionUpdate` instead of being performed.
 */
module Options {
  import opened PhpValues
  import opened PhpArrays

  /** The option name the settings record is stored under (`$plugin_id`). */
  const PluginId: string := "anyparent_plugin"

  const DefaultStatusesKey: Key := StrKey("default_statuses")
  const VersionKey: Key := StrKey("version")

  /** The statuses offered as parents until the administrator chooses, as
      the PHP list `array('publish', 'draft', 'pending', 'private', 'future')`. */
  const DefaultStatuses: Entries :=
    [(IntKey(0), Str("publish")), (IntKey(1), Str("draft")), (IntKey(2), Str("pending")),
     (IntKey(3), Str("private")), (IntKey(4), Str("future"))]

  /** The `$defaults` table of `get_all_options`, in its order. */
  function Defaults(): (d: Entries)
    ensures |d| == 2 && DistinctKeys(d)
    ensures forall i :: 0 <= i < |d| ==> d[i].1 != Null
  {
    [(DefaultStatusesKey, Arr(DefaultStatuses)), (VersionKey, Str("0.1"))]
  }

  /** The default of a settings field, if it has one: `Get(Defaults(), k)`
      written field by field, as `DefaultsGet` proves; not a second table. */
  function DefaultFor(k: Key): Option<Value>
  {
    if k == DefaultStatusesKey then Some(Arr(DefaultStatuses))
    else if k == VersionKey then Some(Str("0.1"))
    else None
  }

  /** The defaults table gives each field its default. */
  lemma DefaultsGet(k: Key)
    ensures Get(Defaults(), k) == DefaultFor(k)
  {
    var d := Defaults();
    assert d[0].0 == DefaultStatusesKey && d[1].0 == VersionKey;
    assert d[1..][1..] == [];
  }

  /** The host's option table. */
  type OptionStore = map<string, Value>

  /** `get_option($name)`: the stored value, or false when there is none. */
  function GetOption(store: OptionStore, name: string): Value
  {
    if name in store then store[name] else Bool(false)
  }

  /** A write `update_option($name, $value)` the plugin asks the host to perform. */
  datatype OptionUpdate = UpdateOption(name: string, value: Value)

  /** The store after the host performed the requested write, if any. */
  function ApplyUpdate(store: OptionStore, u: Option<OptionUpdate>): OptionStore
  {
    match u
    case None => store
    case Some(UpdateOption(name, value)) => store[name := value]
  }

  /** What a variable becomes when the code writes `$v[$k] = ...` into it: an
      array is used as it is, null and false silently become an empty array,
      and any other scalar stops the request with a fatal error. */
  function AsArray(v: Value): Result<Entries>
  {
    match v
    case Arr(e) => Ok(e)
    case Null => Ok([])
    case Bool(false) => Ok([])
    case _ => Fatal("Cannot use a scalar value as an array")
  }

  // ---------------------------------------------------------------------------
  // Filling in defaults
  // ---------------------------------------------------------------------------

  /** The defaulting loop: each default key that is not set (absent, or
      present as null) is written with its default value, in table order. */
  function FillDefaults(o: Entries, d: Entries): Entries
  {
    if d == [] then o
    else
      var filled := FillDefaults(o, d[..|d| - 1]);
      var (k, v) := d[|d| - 1];
      if IsSet(filled, k) then filled else Put(filled, k, v)
  }

  /** Some default key is not set in `o`. */
  predicate AnyMissing(o: Entries, d: Entries)
  {
    exists i :: 0 <= i < |d| && !IsSet(o, d[i].0)
  }

  /** Defaulting writes exactly the default keys that were not set, each with
      its default; every other key keeps its value. */
  lemma {:induction false} FillDefaultsGet(o: Entries, d: Entries, k: Key)
    requires DistinctKeys(d)
    ensures Get(FillDefaults(o, d), k) ==
            if Get(d, k).Some? && !IsSet(o, k) then Get(d, k) else Get(o, k)
  {
    if d != [] {
      var p := d[..|d| - 1];
      var (k', v') := d[|d| - 1];
      assert d == p + [(k', v')];
      assert DistinctKeys(p);
      FillDefaultsGet(o, p, k);
      FillDefaultsGet(o, p, k');
      GetAppend(p, (k', v'), k);
      GetAppend(p, (k', v'), k');
      assert Get(p, k').None?;
    }
  }

  /** Defaulting keeps every key of `o` in its position, and keeps keys distinct. */
  lemma {:induction false} FillDefaultsKeys(o: Entries, d: Entries)
    ensures KeyPrefix(o, FillDefaults(o, d))
    ensures DistinctKeys(o) ==> DistinctKeys(FillDefaults(o, d))
  {
    if d != [] {
      var p := d[..|d| - 1];
      FillDefaultsKeys(o, p);
      var filled := FillDefaults(o, p);
      var (k, v) := d[|d| - 1];
      if !IsSet(filled, k) {
        var r := Put(filled, k, v);
        assert FillDefaults(o, d) == r;
        PutKeys(filled, k, v);
        assert KeyPrefix(o, r) by {
          forall i | 0 <= i < |o|
            ensures r[i].0 == o[i].0
          {
            assert r[i].0 == filled[i].0;
          }
        }
        if DistinctKeys(o) {
          PutDistinct(filled, k, v);
        }
      }
    }
  }

  /** One more turn of the defaulting loop: the next key is tested against the
      stored record, since the earlier turns wrote only other keys. */
  lemma FillDefaultsStep(o: Entries, d: Entries, i: nat)
    requires DistinctKeys(d) && i < |d|
    ensures IsSet(FillDefaults(o, d[..i]), d[i].0) == IsSet(o, d[i].0)
    ensures FillDefaults(o, d[..i + 1]) ==
            if IsSet(o, d[i].0) then FillDefaults(o, d[..i]) else Put(FillDefaults(o, d[..i]), d[i].0, d[i].1)
  {
    var p, q := d[..i], d[..i + 1];
    assert q[..|q| - 1] == p && q[|q| - 1] == d[i];
    assert DistinctKeys(p) by {
      forall a, b | 0 <= a < b < |p|
        ensures p[a].0 != p[b].0
      {
        assert p[a] == d[a] && p[b] == d[b];
      }
    }
    assert Get(p, d[i].0).None? by {
      forall j | 0 <= j < |p|
        ensures p[j].0 != d[i].0
      {
        assert p[j] == d[j];
      }
    }
    FillDefaultsGet(o, p, d[i].0);
  }

  /** A default is missing among the first i + 1 exactly when one is missing
      among the first i or the next one is. */
  lemma AnyMissingStep(o: Entries, d: Entries, i: nat)
    requires i < |d|
    ensures AnyMissing(o, d[..i + 1]) == (AnyMissing(o, d[..i]) || !IsSet(o, d[i].0))
  {
    var p, q := d[..i], d[..i + 1];
    assert forall j :: 0 <= j < i ==> p[j] == q[j];
    assert q[i] == d[i];
  }

  /** With non-null defaults, every default key is set afterwards. */
  lemma FillDefaultsSetsAll(o: Entries, d: Entries)
    requires DistinctKeys(d)
    requires forall i :: 0 <= i < |d| ==> d[i].1 != Null
    ensures forall i :: 0 <= i < |d| ==> IsSet(FillDefaults(o, d), d[i].0)
  {
    forall i | 0 <= i < |d|
      ensures IsSet(FillDefaults(o, d), d[i].0)
    {
      FillDefaultsGet(o, d, d[i].0);
      GetAt(d, i);
    }
  }

  /** A record in which every default key is already set comes back unchanged. */
  lemma {:induction false} FillDefaultsComplete(o: Entries, d: Entries)
    requires !AnyMissing(o, d)
    ensures FillDefaults(o, d) == o
  {
    if d != [] {
      var p := d[..|d| - 1];
      assert !AnyMissing(o, p) by {
        forall i | 0 <= i < |p|
          ensures IsSet(o, p[i].0)
        {
          assert p[i] == d[i];
        }
      }
      FillDefaultsComplete(o, p);
      assert IsSet(o, d[|d| - 1].0);
    }
  }

  /** Defaulting changes the record exactly when some default key was missing. */
  lemma FillDefaultsChanges(o: Entries, d: Entries)
    requires DistinctKeys(d)
    requires forall i :: 0 <= i < |d| ==> d[i].1 != Null
    ensures FillDefaults(o, d) != o <==> AnyMissing(o, d)
  {
    if AnyMissing(o, d) {
      var i :| 0 <= i < |d| && !IsSet(o, d[i].0);
      FillDefaultsSetsAll(o, d);
      assert IsSet(FillDefaults(o, d), d[i].0);
    } else {
      FillDefaultsComplete(o, d);
    }
  }

  /** Defaulting twice is defaulting once. */
  lemma FillDefaultsIdempotent(o: Entries, d: Entries)
    requires DistinctKeys(d)
    requires forall i :: 0 <= i < |d| ==> d[i].1 != Null
    ensures FillDefaults(FillDefaults(o, d), d) == FillDefaults(o, d)
  {
    FillDefaultsSetsAll(o, d);
    FillDefaultsComplete(FillDefaults(o, d), d);
  }

  /** Defaulting with keys as PHP stores them keeps the record's keys so. */
  lemma {:induction false} FillDefaultsWellFormed(o: Entries, d: Entries)
    requires WellFormedKeys(o) && WellFormedKeys(d)
    ensures WellFormedKeys(FillDefaults(o, d))
  {
    if d != [] {
      FillDefaultsWellFormed(o, d[..|d| - 1]);
      var filled := FillDefaults(o, d[..|d| - 1]);
      if !IsSet(filled, d[|d| - 1].0) {
        PutWellFormed(filled, d[|d| - 1].0, d[|d| - 1].1);
      }
    }
  }

  /** The two default fields are string keys as PHP stores them. */
  lemma DefaultKeysWellFormed()
    ensures WellFormedKey(DefaultStatusesKey) && WellFormedKey(VersionKey)
    ensures WellFormedKeys(Defaults())
  {
    assert DefaultStatusesKey.s[0] == 'd';
    LetterKeyWellFormed(DefaultStatusesKey.s);
    assert VersionKey.s[0] == 'v';
    LetterKeyWellFormed(VersionKey.s);
  }

  // ---------------------------------------------------------------------------
  // get_all_options
  // ---------------------------------------------------------------------------

  /** The loaded settings record and the write the plugin asks for. */
  datatype Loaded = Loaded(options: Entries, update: Option<OptionUpdate>)

  /** The option name `update_option` receives in `get_all_options` as written:
      the loop `foreach ($defaults as $name => $value)` reuses `$name`, so after
      the loop it holds the last default key instead of the plugin's option name. */
  function AsWrittenUpdateName(): string
  {
    KeyText(Defaults()[|Defaults()| - 1].0)
  }

  /** `get_all_options` as written: load the record, fill in the defaults, and
      when any default was missing ask for the record to be written under
      the name the loop left in `$name`. */
  function LoadOptions(store: OptionStore): Result<Loaded>
  {
    match AsArray(GetOption(store, PluginId))
    case Fatal(m) => Fatal(m)
    case Ok(o) =>
      var options := FillDefaults(o, Defaults());
      Ok(Loaded(options,
                if AnyMissing(o, Defaults()) then Some(UpdateOption(AsWrittenUpdateName(), Arr(options)))
                else None))
  }

  /** `get_all_options` as evidently intended: the completed record is written
      back under the plugin's own option name. */
  function LoadOptionsIntended(store: OptionStore): Result<Loaded>
  {
    match AsArray(GetOption(store, PluginId))
    case Fatal(m) => Fatal(m)
    case Ok(o) =>
      var options := FillDefaults(o, Defaults());
      Ok(Loaded(options,
                if AnyMissing(o, Defaults()) then Some(UpdateOption(PluginId, Arr(options)))
                else None))
  }

  /** The defaulting loop of `get_all_options`, step by step as the source runs
      it: `$changed` records whether any default was written, and the loop
      variable `$name` is left holding the last default key. */
  method ApplyDefaults(o: Entries, defaults: Entries) returns (options: Entries, changed: bool, name: string)
    requires DistinctKeys(defaults) && defaults != []
    ensures options == FillDefaults(o, defaults)
    ensures changed == AnyMissing(o, defaults)
    ensures name == KeyText(defaults[|defaults| - 1].0)
  {
    options := o;
    changed := false;
    name := "";
    var i := 0;
    while i < |defaults|
      invariant 0 <= i <= |defaults|
      invariant options == FillDefaults(o, defaults[..i])
      invariant changed == AnyMissing(o, defaults[..i])
      invariant i > 0 ==> name == KeyText(defaults[i - 1].0)
    {
      var (k, v) := defaults[i];
      name := KeyText(k);
      FillDefaultsStep(o, defaults, i);
      AnyMissingStep(o, defaults, i);
      if !IsSet(options, k) {
        options := Put(options, k, v);
        changed := true;
      }
      i := i + 1;
    }
    assert defaults[..i] == defaults;
  }

  /** `get_all_options`: read the stored record, run the defaulting loop, and
      ask for a write when anything changed. */
  method GetAllOptions(store: OptionStore) returns (r: Result<Loaded>)
    ensures r == LoadOptions(store)
  {
    var name := PluginId;
    // Writing a default into a stored scalar other than null or false is a
    // fatal error; every default is missing from such a value, so the first
    // write fails.
    var stored := AsArray(GetOption(store, name));
    if stored.Fatal? {
      return Fatal(stored.message);
    }
    var options, changed;
    options, changed, name := ApplyDefaults(stored.value, Defaults());
    var update: Option<OptionUpdate> := None;
    if changed {
      update := Some(UpdateOption(name, Arr(options)));
    }
    r := Ok(Loaded(options, update));
  }

  /** After loading, both default fields are set; a field that was missing or
      null holds its default, every other field keeps its stored value, and
      the stored fields keep their order. */
  lemma LoadOptionsContents(store: OptionStore, k: Key)
    requires LoadOptions(store).Ok?
    ensures var o := AsArray(GetOption(store, PluginId)).value;
            var options := LoadOptions(store).value.options;
            && IsSet(options, DefaultStatusesKey)
            && IsSet(options, VersionKey)
            && Get(options, k) == (if DefaultFor(k).Some? && !IsSet(o, k) then DefaultFor(k) else Get(o, k))
            && KeyPrefix(o, options)
  {
    var o := AsArray(GetOption(store, PluginId)).value;
    FillDefaultsGet(o, Defaults(), k);
    DefaultsGet(k);
    FillDefaultsKeys(o, Defaults());
    FillDefaultsSetsAll(o, Defaults());
    assert Defaults()[0].0 == DefaultStatusesKey && Defaults()[1].0 == VersionKey;
  }

  /** A record stored under the plugin's name loads with every field that is
      set, or has no default, as it was stored. */
  lemma LoadStoredRecord(store: OptionStore, record: Entries, k: Key)
    requires IsSet(record, k) || DefaultFor(k).None?
    ensures LoadOptions(store[PluginId := Arr(record)]).Ok?
    ensures Get(LoadOptions(store[PluginId := Arr(record)]).value.options, k) == Get(record, k)
  {
    var saved := store[PluginId := Arr(record)];
    assert GetOption(saved, PluginId) == Arr(record);
    LoadOptionsContents(saved, k);
  }

  /** Loading asks for a write exactly when it changed the stored record. */
  lemma LoadOptionsUpdatesIffChanged(store: OptionStore)
    requires LoadOptions(store).Ok?
    ensures var o := AsArray(GetOption(store, PluginId)).value;
            LoadOptions(store).value.update.Some? <==> LoadOptions(store).value.options != o
  {
    FillDefaultsChanges(AsArray(GetOption(store, PluginId)).value, Defaults());
  }

  /** A record that already has every default field loads unchanged and
      without any write. */
  lemma LoadCompleteRecord(store: OptionStore)
    requires GetOption(store, PluginId).Arr?
    requires IsSet(GetOption(store, PluginId).entries, DefaultStatusesKey)
    requires IsSet(GetOption(store, PluginId).entries, VersionKey)
    ensures LoadOptions(store) == Ok(Loaded(GetOption(store, PluginId).entries, None))
  {
    var o := GetOption(store, PluginId).entries;
    assert !AnyMissing(o, Defaults()) by {
      forall i | 0 <= i < |Defaults()|
        ensures IsSet(o, Defaults()[i].0)
      {
        assert i == 0 || i == 1;
      }
    }
    FillDefaultsComplete(o, Defaults());
  }

  /** As written, a requested write goes to the option named "version", which
      holds the whole completed record. */
  lemma AsWrittenUpdateTarget(store: OptionStore)
    requires LoadOptions(store).Ok? && LoadOptions(store).value.update.Some?
    ensures LoadOptions(store).value.update.value ==
            UpdateOption("version", Arr(LoadOptions(store).value.options))
  {
  }

  /** As written, performing the requested write does not store the completed
      record under the plugin's name: the next load starts from the same
      incomplete record, fills it again and asks for the same write again. */
  lemma AsWrittenNeverSettles(store: OptionStore)
    requires LoadOptions(store).Ok? && LoadOptions(store).value.update.Some?
    ensures LoadOptions(ApplyUpdate(store, LoadOptions(store).value.update)) == LoadOptions(store)
  {
    var store' := ApplyUpdate(store, LoadOptions(store).value.update);
    assert AsWrittenUpdateName() != PluginId;
    assert GetOption(store', PluginId) == GetOption(store, PluginId);
  }

  /** As intended, the requested write stores the completed record, so the
      next load returns the same record and asks for nothing: defaults are
      written at most once. */
  lemma IntendedLoadSettles(store: OptionStore)
    requires LoadOptionsIntended(store).Ok?
    ensures var l := LoadOptionsIntended(store).value;
            LoadOptionsIntended(ApplyUpdate(store, l.update)) == Ok(Loaded(l.options, None))
  {
    var o := AsArray(GetOption(store, PluginId)).value;
    var l := LoadOptionsIntended(store).value;
    FillDefaultsIdempotent(o, Defaults());
    FillDefaultsSetsAll(o, Defaults());
    var filled := FillDefaults(o, Defaults());
    assert !AnyMissing(filled, Defaults());
    if l.update.None? {
      FillDefaultsComplete(o, Defaults());
    }
  }

  /** The two versions load the same record; they differ only in where the
      completed record is written. */
  lemma IntendedLoadsSameRecord(store: OptionStore)
    ensures LoadOptions(store).Ok? <==> LoadOptionsIntended(store).Ok?
    ensures LoadOptions(store).Ok? ==>
            LoadOptions(store).value.options == LoadOptionsIntended(store).value.options &&
            LoadOptions(store).value.update.Some? == LoadOptionsIntended(store).value.update.Some?
  {
  }

  /** A stored record whose keys are as PHP stores them loads with keys as
      PHP stores them. */
  lemma LoadKeepsWellFormedKeys(store: OptionStore)
    requires GetOption(store, PluginId).Arr? ==> WellFormedKeys(GetOption(store, PluginId).entries)
    ensures LoadOptions(store).Ok? ==> WellFormedKeys(LoadOptions(store).value.options)
  {
    if AsArray(GetOption(store, PluginId)).Ok? {
      DefaultKeysWellFormed();
      FillDefaultsWellFormed(AsArray(GetOption(store, PluginId)).value, Defaults());
    }
  }
}
