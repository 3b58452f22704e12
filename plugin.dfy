/**
 * The plugin object: the settings record it caches when WordPress loads it,
 * and the filters it hooks into WordPress: the parent-page dropdown
 * arguments, the checked state of the status checkboxes on the settings
 * page, and the links on the plugin's row of the plugins list.
 */
module Plugin {
  import opened PhpValues
  import opened PhpArrays
  import opened Options
  import opened Statuses

  const PostStatusKey: Key := StrKey("post_status")
  const PageStatusKey: Key := StrKey("page_status")
  const StatusKey: Key := StrKey("status")

  /** The address of the plugin's settings page. */
  const SettingsUrl: string := "options-general.php?page=" + PluginId
  const FlattrUrl: string := "http://flattr.com/thing/376224/innerdvations-on-Flattr"
  const PaypalUrl: string :=
    "https://www.paypal.com/cgi-bin/webscr?business=donate@innerdvations.com&cmd=_donations&currency_code=EUR&item_name=Donation%20for%20Any-Parent%20plugin"

  /** `sprintf('<a href="%s">%s</a>', $url, $text)` */
  function Link(url: string, text: string): string
  {
    "<a href=\"" + url + "\">" + text + "</a>"
  }

  /** `sprintf('<a href="%s" target="_blank">%s</a>', $url, $text)` */
  function BlankLink(url: string, text: string): string
  {
    "<a href=\"" + url + "\" target=\"_blank\">" + text + "</a>"
  }

  /** The link the plugin adds to its row's actions. */
  function PrimaryLinks(): seq<Value>
  {
    [Str(Link(SettingsUrl, "Settings"))]
  }

  /** The links the plugin adds to its row's description: Flattr, Donate, Settings. */
  function SecondaryLinks(): seq<Value>
  {
    [Str(BlankLink(FlattrUrl, "Flattr")), Str(BlankLink(PaypalUrl, "Donate")), Str(Link(SettingsUrl, "Settings"))]
  }

  class AnyParentPlugin {
    /** The plugin's base name, as `plugin_basename(__FILE__)` gives it. */
    const base: string
    /** The settings record `get_all_options` returned. */
    var options: Entries

    constructor (base: string, options: Entries)
      ensures this.base == base && this.options == options
    {
      this.base := base;
      this.options := options;
    }

    /** `parent_dropdown_filter($args)`: the dropdown lists pages of the
        configured statuses; every other argument is left as it is. */
    function ParentDropdownFilter(args: Entries): (r: Entries)
      reads this
      ensures Get(r, PostStatusKey) == Get(r, PageStatusKey) == Get(r, StatusKey) ==
              Some(Read(options, DefaultStatusesKey))
      ensures forall k :: k != PostStatusKey && k != PageStatusKey && k != StatusKey ==> Get(r, k) == Get(args, k)
    {
      var statuses := Read(options, DefaultStatusesKey);
      Put(Put(Put(args, PostStatusKey, statuses), PageStatusKey, statuses), StatusKey, statuses)
    }

    /** Whether `register_settings` pre-checks a status's box: the status is
        in the stored `default_statuses`, by loose comparison. A stored value
        that is not an array makes `in_array` fail. */
    function DefaultChecked(status: Key): Result<bool>
      reads this
    {
      InArray(KeyValue(status), Read(options, DefaultStatusesKey))
    }

    /** The checked state `input_checkbox` renders for field `id`: the stored
        value's truthiness when it is set, the pre-checked default otherwise. */
    function InputCheckboxChecked(id: Key, defaultChecked: bool): bool
      reads this
    {
      if IsSet(options, id) then Truthy(Read(options, id)) else defaultChecked
    }

    /** The checked state of a status's checkbox on the settings page. */
    function StatusCheckboxChecked(status: Key): (r: Result<bool>)
      reads this
      ensures r.Fatal? <==> !Read(options, DefaultStatusesKey).Arr?
      ensures r.Ok? && IsSet(options, FieldId(status)) ==> (r.value <==> Truthy(Get(options, FieldId(status)).value))
      ensures r.Ok? && !IsSet(options, FieldId(status)) ==>
              (r.value <==> exists i :: 0 <= i < |Read(options, DefaultStatusesKey).entries| &&
                                       LooseEq(KeyValue(status), Read(options, DefaultStatusesKey).entries[i].1))
    {
      match DefaultChecked(status)
      case Fatal(m) => Fatal(m)
      case Ok(defaultChecked) => Ok(InputCheckboxChecked(FieldId(status), defaultChecked))
    }

    /** `extra_plugin_links_primary($data, $page)`: on the plugin's own row
        the settings link is appended with `array_merge`. */
    function ExtraPluginLinksPrimary(data: Entries, page: string): (r: Entries)
      ensures !LooseEq(Str(page), Str(base)) ==> r == data
    {
      if LooseEq(Str(page), Str(base)) then ArrayMerge(data, ListEntries(PrimaryLinks())) else data
    }

    /** `extra_plugin_links_secondary($data, $page)`: on the plugin's own row
        the Flattr, Donate and Settings links are appended with `array_merge`. */
    function ExtraPluginLinksSecondary(data: Entries, page: string): (r: Entries)
      ensures !LooseEq(Str(page), Str(base)) ==> r == data
    {
      if LooseEq(Str(page), Str(base)) then ArrayMerge(data, ListEntries(SecondaryLinks())) else data
    }
  }

  /** The plugin's start-up (`init`): load the settings record with
      `get_all_options` and cache it in a new plugin object. A stored record
      that cannot be used as an array stops the request. */
  method Start(base: string, store: OptionStore) returns (r: Result<AnyParentPlugin>, update: Option<OptionUpdate>)
    ensures r.Ok? <==> LoadOptions(store).Ok?
    ensures r.Ok? ==> fresh(r.value) && r.value.base == base &&
                      IsSet(r.value.options, DefaultStatusesKey) && IsSet(r.value.options, VersionKey) &&
                      r.value.options == LoadOptions(store).value.options &&
                      update == LoadOptions(store).value.update
  {
    var loaded := GetAllOptions(store);
    if loaded.Fatal? {
      return Fatal(loaded.message), None;
    }
    LoadOptionsContents(store, DefaultStatusesKey);
    var plugin := new AnyParentPlugin(base, loaded.value.options);
    r, update := Ok(plugin), loaded.value.update;
  }

  // ---------------------------------------------------------------------------
  // Properties of the filters
  // ---------------------------------------------------------------------------

  /** The dropdown filter keeps the arguments' keys in their order, adding
      only the three status keys, and keeps keys distinct. */
  lemma DropdownFilterKeys(p: AnyParentPlugin, args: Entries)
    ensures KeyPrefix(args, p.ParentDropdownFilter(args))
    ensures |p.ParentDropdownFilter(args)| <= |args| + 3
    ensures DistinctKeys(args) ==> DistinctKeys(p.ParentDropdownFilter(args))
  {
    var statuses := Read(p.options, DefaultStatusesKey);
    var a1 := Put(args, PostStatusKey, statuses);
    var a2 := Put(a1, PageStatusKey, statuses);
    var a3 := Put(a2, StatusKey, statuses);
    PutKeys(args, PostStatusKey, statuses);
    PutKeys(a1, PageStatusKey, statuses);
    PutKeys(a2, StatusKey, statuses);
    assert KeyPrefix(args, a3) by {
      forall i | 0 <= i < |args|
        ensures a3[i].0 == args[i].0
      {
        assert a3[i].0 == a2[i].0 == a1[i].0;
      }
    }
    if DistinctKeys(args) {
      PutDistinct(args, PostStatusKey, statuses);
      PutDistinct(a1, PageStatusKey, statuses);
      PutDistinct(a2, StatusKey, statuses);
    }
  }

  /** Applying the dropdown filter twice is applying it once. */
  lemma DropdownFilterIdempotent(p: AnyParentPlugin, args: Entries)
    ensures p.ParentDropdownFilter(p.ParentDropdownFilter(args)) == p.ParentDropdownFilter(args)
  {
    var statuses := Read(p.options, DefaultStatusesKey);
    var r := p.ParentDropdownFilter(args);
    PutUnchanged(r, PostStatusKey, statuses);
    var r1 := Put(r, PostStatusKey, statuses);
    PutUnchanged(r1, PageStatusKey, statuses);
    var r2 := Put(r1, PageStatusKey, statuses);
    PutUnchanged(r2, StatusKey, statuses);
  }

  /** Before the settings were ever saved, the dropdown offers pages that are
      published, drafts, pending, private or scheduled. */
  lemma FreshInstallDropdown(p: AnyParentPlugin, store: OptionStore, args: Entries)
    requires PluginId !in store
    requires p.options == LoadOptions(store).value.options
    ensures Get(p.ParentDropdownFilter(args), PostStatusKey) == Some(Arr(DefaultStatuses))
  {
    LoadOptionsContents(store, DefaultStatusesKey);
  }

  /** `in_array` of a status name in an array of words that start with a
      letter: true exactly when the status is one of the words. */
  lemma {:induction false} InArrayOfWords(status: Key, e: Entries)
    requires forall i :: 0 <= i < |e| ==> e[i].1.Str? && e[i].1.s != [] && 'a' <= e[i].1.s[0] <= 'z'
    ensures InArray(KeyValue(status), Arr(e)) == Ok(KeyValue(status) in ValuesOf(e))
  {
    forall i | 0 <= i < |e|
      ensures LooseEq(KeyValue(status), e[i].1) <==> KeyValue(status) == e[i].1
    {
      ParseIntLetterStart(e[i].1.s);
    }
    var vs := ValuesOf(e);
    if KeyValue(status) in vs {
      var i :| 0 <= i < |vs| && vs[i] == KeyValue(status);
      assert LooseEq(KeyValue(status), e[i].1);
    }
  }

  /** Before the settings were ever saved, the settings page pre-checks
      exactly the boxes of the statuses in the default list: publish,
      draft, pending, private and future. */
  lemma FreshInstallPrechecked(p: AnyParentPlugin, store: OptionStore, status: Key)
    requires PluginId !in store
    requires p.options == LoadOptions(store).value.options
    ensures p.DefaultChecked(status) == Ok(KeyValue(status) in ValuesOf(DefaultStatuses))
  {
    LoadOptionsContents(store, DefaultStatusesKey);
    DefaultStatusesAreWords();
    InArrayOfWords(status, DefaultStatuses);
  }

  /** Every default status is a word starting with a lower-case letter. */
  lemma DefaultStatusesAreWords()
    ensures forall i :: 0 <= i < |DefaultStatuses| ==>
              DefaultStatuses[i].1.Str? && DefaultStatuses[i].1.s != [] && 'a' <= DefaultStatuses[i].1.s[0] <= 'z'
  {
    var d := DefaultStatuses;
    assert d[0].1.s[0] == 'p';
    assert d[1].1.s[0] == 'd';
    assert d[2].1.s[0] == 'p';
    assert d[3].1.s[0] == 'p';
    assert d[4].1.s[0] == 'f';
  }

  /** For a base name that is not a number, which every plugin file path is,
      the links are added exactly on the row whose name is the base name. */
  lemma OwnRowOnly(p: AnyParentPlugin, page: string)
    requires ParseInt(p.base).None?
    ensures LooseEq(Str(page), Str(p.base)) <==> page == p.base
  {
    LooseEqSymmetric(Str(page), Str(p.base));
    LooseEqNonNumeric(p.base, page);
  }

  /** The primary filter on the plugin's row appends the settings link after
      the existing links; the existing string-keyed links stay where they
      were, and a plain list of links stays a plain list. */
  lemma PrimaryLinksAppended(p: AnyParentPlugin, data: Entries, page: string)
    requires DistinctKeys(data) && LooseEq(Str(page), Str(p.base))
    ensures ValuesOf(p.ExtraPluginLinksPrimary(data, page)) == ValuesOf(data) + PrimaryLinks()
    ensures forall i :: 0 <= i < |data| && data[i].0.StrKey? ==> p.ExtraPluginLinksPrimary(data, page)[i] == data[i]
    ensures data == ListEntries(ValuesOf(data)) ==>
            p.ExtraPluginLinksPrimary(data, page) == ListEntries(ValuesOf(data) + PrimaryLinks())
  {
    AppendListShape(data, PrimaryLinks());
  }

  /** The secondary filter on the plugin's row appends the Flattr, Donate and
      Settings links, in that order, after the existing ones, in the same way. */
  lemma SecondaryLinksAppended(p: AnyParentPlugin, data: Entries, page: string)
    requires DistinctKeys(data) && LooseEq(Str(page), Str(p.base))
    ensures ValuesOf(p.ExtraPluginLinksSecondary(data, page)) == ValuesOf(data) + SecondaryLinks()
    ensures forall i :: 0 <= i < |data| && data[i].0.StrKey? ==> p.ExtraPluginLinksSecondary(data, page)[i] == data[i]
    ensures data == ListEntries(ValuesOf(data)) ==>
            p.ExtraPluginLinksSecondary(data, page) == ListEntries(ValuesOf(data) + SecondaryLinks())
  {
    AppendListShape(data, SecondaryLinks());
  }

  /** No status's checkbox field is one of the default fields. */
  lemma FieldIdHasNoDefault(status: Key)
    ensures DefaultFor(FieldId(status)).None?
  {
    assert FieldId(status).s[0] == 's';
    assert DefaultStatusesKey.s[0] == 'd';
    assert VersionKey.s[0] == 'v';
  }

  /** Once a status's field is stored, its checkbox shows the stored value's
      truthiness, whatever `default_statuses` holds. */
  lemma CheckboxFollowsStoredField(p: AnyParentPlugin, status: Key)
    requires Read(p.options, DefaultStatusesKey).Arr? && IsSet(p.options, FieldId(status))
    ensures p.StatusCheckboxChecked(status) == Ok(Truthy(Get(p.options, FieldId(status)).value))
  {
    assert p.DefaultChecked(status).Ok?;
  }

  /** A choice saved on the settings page is what the page shows next time:
      after a submission with a status's field set to "1" or "0" is
      validated and stored under the plugin's option name, the next start-up
      renders that status's box checked exactly when "1" was submitted. */
  lemma SavedChoiceIsRendered(store: OptionStore, wp: StatusRegistry, input: Value, status: Key,
                               record: Entries, p: AnyParentPlugin)
    requires input.Arr? && DistinctKeys(input.entries)
    requires Get(input.entries, FieldId(status)) == Some(Str("1")) || Get(input.entries, FieldId(status)) == Some(Str("0"))
    requires Get(input.entries, DefaultStatusesKey).None?
    requires ValidateOptions(store, wp, input) == Ok(record)
    requires LoadOptions(store[PluginId := Arr(record)]).Ok?
    requires p.options == LoadOptions(store[PluginId := Arr(record)]).value.options
    ensures p.StatusCheckboxChecked(status) == Ok(Get(input.entries, FieldId(status)) == Some(Str("1")))
  {
    var id := FieldId(status);
    ValidateOptionsGet(store, wp, input, id);
    ValidateOptionsGet(store, wp, input, DefaultStatusesKey);
    LoadStoredRecord(store, record, id);
    LoadStoredRecord(store, record, DefaultStatusesKey);
    FieldIdHasNoDefault(status);
    CheckboxFollowsStoredField(p, status);
    var submitted := Get(input.entries, id).value;
    assert Truthy(submitted) == (submitted == Str("1")) by {
      assert "1" != "0";
    }
  }
}
