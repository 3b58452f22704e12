/**
 * The post statuses offered on the settings page (`get_post_statuses`) and
 * the validation of a submitted settings form (`plugin_options_validate`).
 *
 * WordPress's registry of post statuses (the global `$wp_post_statuses`) is
 * a parameter: its status names in registry order, each with its label.
 */
module Statuses {
  import opened PhpValues
  import opened PhpArrays
  import opened Options

  /** `$exclude_statuses`: revisions make no sense as parents. */
  const ExcludeStatuses: seq<string> := ["inherit"]

  /** The status registry: each status name with its label. */
  type StatusRegistry = seq<(Key, string)>

  /** The registry as `name => label` entries. */
  function StatusLabels(wp: StatusRegistry): (r: Entries)
    ensures |r| == |wp| && forall i :: 0 <= i < |wp| ==> r[i] == (wp[i].0, Str(wp[i].1))
  {
    if wp == [] then []
    else StatusLabels(wp[..|wp| - 1]) + [(wp[|wp| - 1].0, Str(wp[|wp| - 1].1))]
  }

  /** The result of `get_post_statuses`: the registry's `name => label`
      entries with `array_diff` applied against the excluded statuses. */
  function PossibleStatuses(wp: StatusRegistry): Entries
  {
    ArrayDiff(PutAll([], StatusLabels(wp)), ExcludeStatuses)
  }

  /** `get_post_statuses`: copy each status's label into a fresh array, then
      drop the excluded ones. */
  method GetPostStatuses(wp: StatusRegistry) returns (possible: Entries)
    ensures possible == PossibleStatuses(wp)
  {
    possible := [];
    if wp != [] {
      var i := 0;
      while i < |wp|
        invariant 0 <= i <= |wp|
        invariant possible == PutAll([], StatusLabels(wp[..i]))
      {
        var (ps, statusLabel) := wp[i];
        assert wp[..i + 1][..i] == wp[..i];
        possible := Put(possible, ps, Str(statusLabel));
        i := i + 1;
      }
      assert wp[..i] == wp;
    }
    possible := ArrayDiff(possible, ExcludeStatuses);
  }

  /** The registry's names are distinct, as the keys of a PHP array are. */
  lemma StatusLabelsDistinct(wp: StatusRegistry)
    requires DistinctKeys(wp)
    ensures DistinctKeys(StatusLabels(wp))
  {
    var r := StatusLabels(wp);
    forall i, j | 0 <= i < j < |r|
      ensures r[i].0 != r[j].0
    {
      assert r[i].0 == wp[i].0 && r[j].0 == wp[j].0;
    }
  }

  /** The offered statuses are the registry's entries with their names and in
      their order; an entry is dropped exactly when its label (not its name)
      is an excluded status; names stay distinct. */
  lemma PossibleStatusesSpec(wp: StatusRegistry)
    requires DistinctKeys(wp)
    ensures var possible := PossibleStatuses(wp);
            && IsSubsequence(possible, StatusLabels(wp))
            && (forall e :: e in possible <==> e in StatusLabels(wp) && e.1 != Str("inherit"))
            && DistinctKeys(possible)
  {
    StatusLabelsDistinct(wp);
    PutAllIntoEmpty(StatusLabels(wp));
    ArrayDiffSpec(StatusLabels(wp), ExcludeStatuses);
    ArrayDiffDistinct(StatusLabels(wp), ExcludeStatuses);
    forall e | e in StatusLabels(wp)
      ensures StringOf(e.1) !in ExcludeStatuses <==> e.1 != Str("inherit")
    {
      var i :| 0 <= i < |wp| && StatusLabels(wp)[i] == e;
    }
  }

  /** Reading a status name from the offered statuses gives its label, unless
      the label is "inherit". */
  lemma PossibleStatusesGet(wp: StatusRegistry, k: Key)
    requires DistinctKeys(wp)
    ensures var labels := StatusLabels(wp);
            Get(PossibleStatuses(wp), k) ==
            if Get(labels, k).Some? && Get(labels, k) != Some(Str("inherit")) then Get(labels, k) else None
  {
    var labels := StatusLabels(wp);
    StatusLabelsDistinct(wp);
    PutAllIntoEmpty(labels);
    ArrayDiffGet(labels, ExcludeStatuses, k);
    if Get(labels, k).Some? {
      GetFound(labels, k);
    }
  }

  /** Exclusion goes by label, not by name: a status named "inherit" with
      another label is offered... */
  lemma InheritNameIsOffered()
    ensures PossibleStatuses([(StrKey("inherit"), "Inherit")]) == [(StrKey("inherit"), Str("Inherit"))]
  {
    var kept := (StrKey("inherit"), Str("Inherit"));
    assert StatusLabels([(StrKey("inherit"), "Inherit")]) == [kept];
    PutAllIntoEmpty([kept]);
    assert "Inherit" !in ExcludeStatuses by {
      assert "Inherit"[0] != "inherit"[0];
    }
    assert [kept][..0] == [];
  }

  /** ...and a status of any name labelled "inherit" is not. */
  lemma InheritLabelIsDropped()
    ensures PossibleStatuses([(StrKey("revision"), "inherit")]) == []
  {
    var dropped := (StrKey("revision"), Str("inherit"));
    assert StatusLabels([(StrKey("revision"), "inherit")]) == [dropped];
    PutAllIntoEmpty([dropped]);
    assert [dropped][..0] == [];
  }

  // ---------------------------------------------------------------------------
  // plugin_options_validate
  // ---------------------------------------------------------------------------

  /** The form field of a status's checkbox, `"status_{$status}"`. */
  function FieldId(status: Key): Key
  {
    StrKey("status_" + KeyText(status))
  }

  /** A status's form field is a string key as PHP stores it. */
  lemma FieldIdWellFormed(status: Key)
    ensures WellFormedKey(FieldId(status))
  {
    assert FieldId(status).s[0] == 's';
    LetterKeyWellFormed(FieldId(status).s);
  }

  /** Different statuses have different form fields. */
  lemma FieldIdInjective(k1: Key, k2: Key)
    requires WellFormedKey(k1) && WellFormedKey(k2) && FieldId(k1) == FieldId(k2)
    ensures k1 == k2
  {
    var prefix := "status_";
    assert KeyText(k1) == (prefix + KeyText(k1))[|prefix|..];
    assert KeyText(k2) == (prefix + KeyText(k2))[|prefix|..];
    KeyTextInjective(k1, k2);
  }

  /** The form field of a status is set in the submission and loosely equals "1". */
  predicate Submitted(input: Value, status: Key)
  {
    input.Arr? && IsSet(input.entries, FieldId(status)) &&
    LooseEq(Get(input.entries, FieldId(status)).value, Str("1"))
  }

  /** The statuses, in offered order, whose checkbox was submitted as "1". */
  function ChosenStatuses(possible: Entries, input: Value): seq<Value>
  {
    if possible == [] then []
    else
      var chosen := ChosenStatuses(possible[..|possible| - 1], input);
      var status := possible[|possible| - 1].0;
      if Submitted(input, status) then chosen + [KeyValue(status)] else chosen
  }

  /** The status names of the offered statuses, in order. */
  function StatusNames(possible: Entries): (names: seq<Value>)
    ensures |names| == |possible| && forall i :: 0 <= i < |possible| ==> names[i] == KeyValue(possible[i].0)
  {
    if possible == [] then []
    else StatusNames(possible[..|possible| - 1]) + [KeyValue(possible[|possible| - 1].0)]
  }

  /** Different keys give different values. */
  lemma KeyValueInjective(k: Key, k': Key)
    ensures KeyValue(k) == KeyValue(k') <==> k == k'
  {
  }

  /** The chosen statuses are offered names, in their offered order. */
  lemma {:induction false} ChosenStatusesOrder(possible: Entries, input: Value)
    ensures IsSubsequence(ChosenStatuses(possible, input), StatusNames(possible))
  {
    if possible != [] {
      var p := possible[..|possible| - 1];
      ChosenStatusesOrder(p, input);
      assert StatusNames(possible)[..|possible| - 1] == StatusNames(p);
    }
  }

  /** A status is chosen exactly when it is offered and its field was
      submitted as "1". */
  lemma {:induction false} ChosenStatusesMembers(possible: Entries, input: Value, k: Key)
    ensures KeyValue(k) in ChosenStatuses(possible, input) <==> Get(possible, k).Some? && Submitted(input, k)
  {
    if possible != [] {
      var p := possible[..|possible| - 1];
      var last := possible[|possible| - 1];
      ChosenStatusesMembers(p, input, k);
      assert possible == p + [last];
      GetAppend(p, last, k);
      KeyValueInjective(k, last.0);
    }
  }

  /** With nothing submitted as "1" (in particular when the submission is not
      an array), no status is chosen. */
  lemma {:induction false} NothingChosen(possible: Entries, input: Value)
    requires forall k :: !Submitted(input, k)
    ensures ChosenStatuses(possible, input) == []
  {
    if possible != [] {
      NothingChosen(possible[..|possible| - 1], input);
    }
  }

  /** Only the submitted fields matter: two submissions that agree on which
      status fields are "1" choose the same statuses. */
  lemma {:induction false} ChosenDependsOnlyOnSubmitted(possible: Entries, input: Value, input': Value)
    requires forall k :: Submitted(input, k) == Submitted(input', k)
    ensures ChosenStatuses(possible, input) == ChosenStatuses(possible, input')
  {
    if possible != [] {
      ChosenDependsOnlyOnSubmitted(possible[..|possible| - 1], input, input');
    }
  }

  lemma ParseIntOne()
    ensures ParseInt("1") == Some(1)
  {
    assert TrimStart("1") == "1";
    assert TrimEnd("1") == "1";
  }

  /** The submitted values that count as "1": a string denoting the integer
      one (" 1", "01", "+1" as well as "1"), the integer 1, and true. */
  lemma CountsAsOne(v: Value)
    ensures LooseEq(v, Str("1")) <==> match v
                                      case Str(s) => ParseInt(s) == Some(1)
                                      case Int(n) => n == 1
                                      case Bool(b) => b
                                      case Null => false
                                      case Arr(_) => false
  {
    ParseIntOne();
  }

  lemma ParseIntZero()
    ensures ParseInt("0") == Some(0)
  {
    assert TrimStart("0") == "0";
    assert TrimEnd("0") == "0";
  }

  lemma ParseIntOn()
    ensures ParseInt("on") == None
  {
    assert TrimStart("on") == "on";
    assert TrimEnd("on") == "on";
  }

  /** "0", the value of the hidden field sent for an unticked box, does not count as "1". */
  lemma ZeroIsNotOne()
    ensures !LooseEq(Str("0"), Str("1"))
  {
    ParseIntOne();
    ParseIntZero();
  }

  /** Text that is not a number, such as a browser's default "on", does not count as "1". */
  lemma OnIsNotOne()
    ensures !LooseEq(Str("on"), Str("1"))
  {
    ParseIntOne();
    ParseIntOn();
    assert "on" != "1";
  }

  /** `plugin_options_validate($input)`: start from the stored record (null
      or false become an empty array, another scalar is a fatal error), set
      `default_statuses` to the chosen statuses as a list, then copy every
      submitted key over the record. */
  function ValidateOptions(store: OptionStore, wp: StatusRegistry, input: Value): Result<Entries>
  {
    match AsArray(GetOption(store, PluginId))
    case Fatal(m) => Fatal(m)
    case Ok(stored) =>
      var options := Put(stored, DefaultStatusesKey,
                         Arr(ListEntries(ChosenStatuses(PossibleStatuses(wp), input))));
      Ok(if input.Arr? then PutAll(options, input.entries) else options)
  }

  /** The first loop of `plugin_options_validate`: rebuild `default_statuses`
      from the status fields of the submission. */
  method ChooseStatuses(possible: Entries, input: Value) returns (defaultStatuses: seq<Value>)
    ensures defaultStatuses == ChosenStatuses(possible, input)
  {
    defaultStatuses := [];
    var i := 0;
    while i < |possible|
      invariant 0 <= i <= |possible|
      invariant defaultStatuses == ChosenStatuses(possible[..i], input)
    {
      var status := possible[i].0;
      assert possible[..i + 1][..i] == possible[..i];
      var fieldId := FieldId(status);
      if input.Arr? && IsSet(input.entries, fieldId) && LooseEq(Read(input.entries, fieldId), Str("1")) {
        defaultStatuses := defaultStatuses + [KeyValue(status)];
      } else {
        assert !Submitted(input, status);
      }
      i := i + 1;
    }
    assert possible[..i] == possible;
  }

  /** `plugin_options_validate`, step by step as the source runs it. */
  method PluginOptionsValidate(store: OptionStore, wp: StatusRegistry, input: Value) returns (r: Result<Entries>)
    ensures r == ValidateOptions(store, wp, input)
  {
    var stored := GetOption(store, PluginId);
    var possible := GetPostStatuses(wp);
    var defaultStatuses := ChooseStatuses(possible, input);
    var asArray := AsArray(stored);
    if asArray.Fatal? {
      return Fatal(asArray.message);
    }
    var withStatuses := Put(asArray.value, DefaultStatusesKey, Arr(ListEntries(defaultStatuses)));
    var options := withStatuses;
    if input.Arr? {
      var j := 0;
      while j < |input.entries|
        invariant 0 <= j <= |input.entries|
        invariant options == PutAll(withStatuses, input.entries[..j])
      {
        var (key, val) := input.entries[j];
        assert input.entries[..j + 1][..j] == input.entries[..j];
        options := Put(options, key, val);
        j := j + 1;
      }
      assert input.entries[..j] == input.entries;
    }
    r := Ok(options);
  }

  /** Validation fails exactly when the stored record is a scalar other than
      null or false. Otherwise every submitted key holds its submitted value
      (a submitted `default_statuses` included), `default_statuses` otherwise
      holds the chosen statuses, every other stored key keeps its value, and
      the stored keys keep their order. */
  lemma ValidateOptionsGet(store: OptionStore, wp: StatusRegistry, input: Value, k: Key)
    requires input.Arr? ==> DistinctKeys(input.entries)
    ensures ValidateOptions(store, wp, input).Ok? <==> AsArray(GetOption(store, PluginId)).Ok?
    ensures ValidateOptions(store, wp, input).Ok? ==>
            var stored := AsArray(GetOption(store, PluginId)).value;
            var r := ValidateOptions(store, wp, input).value;
            && Get(r, k) == (if input.Arr? && Get(input.entries, k).Some? then Get(input.entries, k)
                             else if k == DefaultStatusesKey
                             then Some(Arr(ListEntries(ChosenStatuses(PossibleStatuses(wp), input))))
                             else Get(stored, k))
            && KeyPrefix(stored, r)
  {
    if AsArray(GetOption(store, PluginId)).Ok? {
      var stored := AsArray(GetOption(store, PluginId)).value;
      var chosen := Arr(ListEntries(ChosenStatuses(PossibleStatuses(wp), input)));
      var options := Put(stored, DefaultStatusesKey, chosen);
      PutKeys(stored, DefaultStatusesKey, chosen);
      if input.Arr? {
        PutAllGet(options, input.entries, k);
        PutAllKeepsOrder(options, input.entries);
        assert KeyPrefix(stored, PutAll(options, input.entries)) by {
          var r := PutAll(options, input.entries);
          forall i | 0 <= i < |stored|
            ensures r[i].0 == stored[i].0
          {
            assert r[i].0 == options[i].0;
          }
        }
      }
    }
  }

  /** A submission that is not an array changes only `default_statuses`,
      which becomes the empty list. */
  lemma ValidateNonArray(store: OptionStore, wp: StatusRegistry, input: Value)
    requires !input.Arr? && AsArray(GetOption(store, PluginId)).Ok?
    ensures ValidateOptions(store, wp, input) ==
            Ok(Put(AsArray(GetOption(store, PluginId)).value, DefaultStatusesKey, Arr([])))
  {
    NothingChosen(PossibleStatuses(wp), input);
  }

  /** Loading the settings and validating a submission fail on exactly the
      same stores: those holding a scalar other than null and false. */
  lemma LoadAndValidateFailAlike(store: OptionStore, wp: StatusRegistry, input: Value)
    ensures LoadOptions(store).Fatal? <==> ValidateOptions(store, wp, input).Fatal?
    ensures LoadOptions(store).Fatal? <==>
            PluginId in store && !store[PluginId].Arr? && store[PluginId] != Null && store[PluginId] != Bool(false)
  {
  }

  /** Validation of a stored record and a submission whose keys are as PHP
      stores them gives a record whose keys are as PHP stores them. */
  lemma ValidateKeepsWellFormedKeys(store: OptionStore, wp: StatusRegistry, input: Value)
    requires GetOption(store, PluginId).Arr? ==> WellFormedKeys(GetOption(store, PluginId).entries)
    requires input.Arr? ==> WellFormedKeys(input.entries)
    ensures ValidateOptions(store, wp, input).Ok? ==> WellFormedKeys(ValidateOptions(store, wp, input).value)
  {
    if AsArray(GetOption(store, PluginId)).Ok? {
      var stored := AsArray(GetOption(store, PluginId)).value;
      var chosen := Arr(ListEntries(ChosenStatuses(PossibleStatuses(wp), input)));
      DefaultKeysWellFormed();
      PutWellFormed(stored, DefaultStatusesKey, chosen);
      if input.Arr? {
        PutAllWellFormed(Put(stored, DefaultStatusesKey, chosen), input.entries);
      }
    }
  }
}
