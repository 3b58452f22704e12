# Any Parent — a Dafny model

Any Parent is a WordPress plugin (`any-parent.php`) that lets the site
administrator choose which post statuses (published, draft, pending,
private, scheduled, …) may appear in the "Parent" dropdown of the page
editor. Around WordPress's hooks it keeps a small settings record and
transforms ordered PHP arrays. This project models those transformations
and proves what they do:

- **Loading the settings** (`get_all_options`): the record stored under the
  option `anyparent_plugin` is read, every default field that is not `isset`
  is filled in, and a write-back is requested when anything was filled.
- **The offered statuses** (`get_post_statuses`): WordPress's status
  registry as `name => label`, with `array_diff` against `array('inherit')`.
- **Validating a settings submission** (`plugin_options_validate`):
  `default_statuses` becomes the list of offered statuses whose
  `status_<name>` field loosely equals `"1"`, then every submitted key is
  copied over the stored record.
- **The dropdown filter** (`parent_dropdown_filter`), the **checked state of
  the status checkboxes** (`register_settings` with `input_checkbox`), and
  the **links on the plugin's row** (`extra_plugin_links_primary` /
  `_secondary`).

Files and modules:

- `php_values.dfy` (`PhpValues`): PHP values without floats and objects,
  truthiness, integer numeric strings and PHP 8 loose comparison `==`.
- `php_arrays.dfy` (`PhpArrays`): ordered arrays as sequences of key/value
  entries; `$a[$k]`, `isset`, `$a[$k] = $v` (an existing key keeps its
  position, a new one is appended), `in_array`, `array_diff`, `array_merge`.
- `options.dfy` (`Options`): the settings record and `get_all_options`.
- `statuses.dfy` (`Statuses`): `get_post_statuses` and
  `plugin_options_validate`.
- `plugin.dfy` (`Plugin`): the `AnyParentPlugin` object, which caches the
  loaded record in its `options` field, and its filters.

The host is replaced by values. The option table (`get_option`) is a
`map<string, Value>` parameter, and an absent option reads as `false`.
A write the plugin asks for (`update_option`) is returned as an
`OptionUpdate` instead of being performed. `$wp_post_statuses` is a
parameter listing each status name with its label. `plugin_basename` is
the `base` given at start-up. A PHP fatal error, which ends the request, is
the `Fatal` case of a `Result`.

`get_all_options`, `get_post_statuses` and `plugin_options_validate` update
arrays step by step in loops, so they are methods with loop invariants:
`GetAllOptions` (with its loop in `ApplyDefaults`), `GetPostStatuses`, and
`PluginOptionsValidate` (with its first loop in `ChooseStatuses`). Each is
proved equal to a function, and the properties are lemmas about those
functions. The filters compute a value from their arguments and the cached
record, so they are functions of the `AnyParentPlugin` class.

Where the code and the plugin's own description disagree, the model
follows the code:

- The code fills a default when the field is absent or null (`isset`), not
  only when it is absent.
- `default_statuses` is an ordered PHP list in the order of the offered
  statuses. It is not a set.
- The field must loosely equal `"1"`. `" 1"`, `"01"` and `"+1"` count as
  affirmative, and so would `1` or `true`.
- A submitted `default_statuses` key overrides the recomputed one.
- The completed record is not written back under the plugin's option name
  (see Findings), so it is not written exactly once.
- Besides the permission check, there are two more fatal paths. A stored record that is a scalar other than null or false
  cannot be written into. A stored `default_statuses` that is not an array
  makes `in_array` fail under PHP 8.

## Model

| member | source | states |
|---|---|---|
| PhpArrays.Get | any-parent.php:72 | reading `$a[$k]` yields nothing exactly when no entry has key `k` |
| PhpArrays.GetFound | any-parent.php:72 | a value read under `k` is stored in an entry with key `k` |
| PhpArrays.GetAt | any-parent.php:72 | with distinct keys, reading the key of any entry gives that entry's value |
| PhpArrays.ReadNonNullIffSet | any-parent.php:136-137 | `$a[$k]` reads a non-null value exactly when `isset($a[$k])`, and that value is stored in the array under `k` |
| PhpArrays.Put | any-parent.php:223 | after `$a[$k] = $v`, `k` holds `v`, every other key reads as before, and a new key is appended at the end |
| PhpArrays.PutKeys | any-parent.php:223 | `$a[$k] = $v` keeps every key in its position; the length grows by one exactly when the key was new |
| PhpArrays.PutDistinct | any-parent.php:223 | `$a[$k] = $v` keeps the keys distinct |
| PhpArrays.PutUnchanged | any-parent.php:73 | writing the value a key already holds leaves the array unchanged |
| PhpArrays.PutAllGet | any-parent.php:193-195 | copying an array into `a` with `foreach`: its keys read as copied, other keys as in `a` |
| PhpArrays.PutAllIntoEmpty | any-parent.php:169-171 | copying an array into an empty one reproduces it |
| PhpArrays.PutAllKeepsOrder | any-parent.php:193-195 | copying keeps the keys of `a` in their positions and keeps keys distinct |
| PhpArrays.InArrayList | any-parent.php:109 | `in_array` on a PHP list is true exactly when one of the list's values loosely equals the needle |
| PhpArrays.PutWellFormed | any-parent.php:223 | writing under a key as PHP stores it keeps all keys as PHP stores them |
| PhpArrays.PutAllWellFormed | any-parent.php:193-195 | copying an array whose keys are as PHP stores them keeps all keys so |
| PhpArrays.ArrayDiffSpec | any-parent.php:173 | `array_diff` keeps the entries whose string value is not excluded, and only those, in order |
| PhpArrays.ArrayDiffGet | any-parent.php:173 | `array_diff` drops exactly the keys whose value is excluded and keeps the other keys' values |
| PhpArrays.ArrayDiffDistinct | any-parent.php:173 | `array_diff` keeps the keys distinct |
| PhpArrays.MergeAllShape | any-parent.php:258-260 | without repeated string keys, `array_merge` keeps each entry in place, with string keys unchanged and integer keys renumbered 0, 1, 2, … |
| PhpArrays.AppendListShape | any-parent.php:269-273 | merging a list after an array appends its values after the array's values, keeps the array's string-keyed entries, and keeps a list a list |
| PhpValues.ParseIntOfDecimal | any-parent.php:185 | the text of an integer key, as `"status_{$status}"` interpolates it, reads back as that integer |
| PhpValues.ParseIntLeadingWhitespace | any-parent.php:186 | a leading whitespace character (space, tab, newline, carriage return, vertical tab, form feed) does not change the number a numeric string denotes in `==` |
| PhpValues.ParseIntLeadingZero | any-parent.php:186 | a leading zero does not change the number a digit string denotes in `==` |
| PhpValues.ParseIntLetterStart | any-parent.php:109 | a string that starts with a lower-case letter, such as a status name, is not numeric |
| PhpValues.KeyTextInjective | any-parent.php:185 | keys as PHP stores them (no string key holding an integer's canonical text) have distinct texts when interpolated |
| PhpValues.LooseEqNonNumeric | any-parent.php:256 | a non-numeric string loosely equals exactly the identical string |
| Options.Defaults | any-parent.php:210-218 | the defaults table has two fields with distinct keys and non-null values |
| Options.DefaultsGet | any-parent.php:210-218 | the table gives `default_statuses` the list publish, draft, pending, private, future and `version` "0.1", and no other field |
| Statuses.LoadAndValidateFailAlike | any-parent.php:178-223 | loading and validating fail on exactly the same stores, those whose record is a scalar other than null and false, into which `$options[...] = ...` cannot write |
| Options.FillDefaultsGet | any-parent.php:221-226 | defaulting writes exactly the default fields that were not set, each with its default; every other field keeps its value |
| Options.FillDefaultsKeys | any-parent.php:221-226 | defaulting keeps every stored field in its position and keeps keys distinct |
| Options.FillDefaultsStep | any-parent.php:221-225 | each turn of the loop tests the next default against the stored record, since earlier turns wrote other keys |
| Options.AnyMissingStep | any-parent.php:220-225 | `$changed` after a turn is its old value or whether this default was missing |
| Options.FillDefaultsSetsAll | any-parent.php:210-226 | after defaulting, every default field is set |
| Options.FillDefaultsComplete | any-parent.php:221-226 | a record with every default field set comes back unchanged |
| Options.FillDefaultsChanges | any-parent.php:220-226 | defaulting changes the record exactly when some default field was missing or null |
| Options.FillDefaultsIdempotent | any-parent.php:220-226 | defaulting twice is defaulting once |
| Options.ApplyDefaults | any-parent.php:220-226 | the loop returns the filled record, `$changed` true exactly when some default was missing, and `$name` holding the last default key |
| Options.GetAllOptions | any-parent.php:206-231 | `get_all_options` returns the filled record and requests a write exactly as `LoadOptions` describes, or fails on a scalar stored record |
| Options.LoadOptionsContents | any-parent.php:206-231 | after loading, both default fields are set; a missing or null field holds its default, every other field its stored value, in stored order |
| Options.LoadStoredRecord | any-parent.php:208-226 | a record stored under `anyparent_plugin` loads with each set field, and each field without a default, as stored |
| Options.LoadOptionsUpdatesIffChanged | any-parent.php:220-229 | a write is requested exactly when loading changed the stored record |
| Options.LoadCompleteRecord | any-parent.php:220-230 | a stored record with both default fields set loads unchanged and requests no write |
| Options.AsWrittenUpdateTarget | any-parent.php:221-228 | as written, the requested write goes to the option "version" and holds the whole record |
| Options.AsWrittenNeverSettles | any-parent.php:207-229 | as written, performing the requested write leaves the next load exactly as before, write request included |
| Options.IntendedLoadSettles | any-parent.php:207-229 | writing under the plugin's name, the next load returns the same record and requests nothing |
| Options.LoadKeepsWellFormedKeys | any-parent.php:206-231 | a stored record whose keys are as PHP stores them loads with keys as PHP stores them |
| Options.IntendedLoadsSameRecord | any-parent.php:206-231 | the as-written and intended loads fail alike and return the same record; they differ only in the write's target |
| Statuses.StatusLabels | any-parent.php:169-171 | the registry becomes one `name => label` entry per status, in registry order |
| Statuses.GetPostStatuses | any-parent.php:164-175 | the loop and `array_diff` compute the offered statuses as `PossibleStatuses` defines them |
| Statuses.StatusLabelsDistinct | any-parent.php:169-171 | distinct status names give distinct keys |
| Statuses.PossibleStatusesSpec | any-parent.php:164-175 | the offered statuses are the registry's entries in order under their names, an entry is dropped exactly when its label is "inherit", and names stay distinct |
| Statuses.PossibleStatusesGet | any-parent.php:164-175 | looking a name up among the offered statuses gives its label unless the label is "inherit" |
| Statuses.InheritNameIsOffered | any-parent.php:173 | a status named "inherit" with the label "Inherit" is offered, because `array_diff` compares labels |
| Statuses.InheritLabelIsDropped | any-parent.php:173 | a status of another name labelled "inherit" is not offered |
| Statuses.FieldIdInjective | any-parent.php:185 | different statuses, with keys as PHP stores them, have different form fields `status_<name>` |
| Statuses.StatusNames | any-parent.php:184 | the names of the offered statuses, one per entry, in order |
| Statuses.KeyValueInjective | any-parent.php:187 | different status keys are different values in `default_statuses` |
| Statuses.ChosenStatusesOrder | any-parent.php:184-189 | the chosen statuses are offered names in their offered order |
| Statuses.ChosenStatusesMembers | any-parent.php:184-189 | a status is chosen exactly when it is offered and its field is set and loosely equals "1" |
| Statuses.NothingChosen | any-parent.php:186 | with no field loosely equal to "1", and in particular for a submission that is not an array, no status is chosen |
| Statuses.ChosenDependsOnlyOnSubmitted | any-parent.php:186 | two submissions that agree on which status fields count as "1" choose the same statuses |
| Statuses.CountsAsOne | any-parent.php:186 | a field counts as "1" exactly when it is a string denoting the integer one, the integer 1, or true; never when it is an array |
| Statuses.ZeroIsNotOne | any-parent.php:186 | "0", the hidden field's value for an unticked box, does not count |
| Statuses.OnIsNotOne | any-parent.php:186 | non-numeric text such as "on" does not count |
| Statuses.ChooseStatuses | any-parent.php:183-189 | the loop collects the chosen statuses as `ChosenStatuses` defines them |
| Statuses.PluginOptionsValidate | any-parent.php:177-199 | validation returns the record `ValidateOptions` defines, or fails on a scalar stored record |
| Statuses.ValidateOptionsGet | any-parent.php:177-199 | validation fails exactly on a scalar stored record; otherwise submitted keys win, a non-submitted `default_statuses` holds the chosen list, other stored fields are kept, in stored order |
| Statuses.ValidateKeepsWellFormedKeys | any-parent.php:177-199 | validating a stored record and a submission whose keys are as PHP stores them gives a record whose keys are as PHP stores them |
| Statuses.ValidateNonArray | any-parent.php:190-196 | a submission that is not an array only sets `default_statuses`, to the empty list |
| Plugin.AnyParentPlugin.ParentDropdownFilter | any-parent.php:71-77 | `post_status`, `page_status` and `status` hold the configured statuses; every other argument reads as before |
| Plugin.DropdownFilterKeys | any-parent.php:71-77 | the filter keeps the arguments' keys in place, adds at most the three status keys, and keeps keys distinct |
| Plugin.DropdownFilterIdempotent | any-parent.php:71-77 | filtering twice is filtering once |
| Plugin.FreshInstallDropdown | any-parent.php:72 | before any settings are saved, the dropdown offers publish, draft, pending, private and future |
| Plugin.InArrayOfWords | any-parent.php:109 | a status name is `in_array` of a list of words exactly when it is one of the words, compared as text |
| Plugin.DefaultStatusesAreWords | any-parent.php:212 | each default status is a word starting with a lower-case letter |
| Plugin.FreshInstallPrechecked | any-parent.php:103-111 | before any settings are saved, a status's box is pre-checked exactly when it is publish, draft, pending, private or future |
| Plugin.AnyParentPlugin.StatusCheckboxChecked | any-parent.php:106-141 | a status's box is checked exactly when its field is set and truthy, or, unset, when its status is in `default_statuses` |
| Plugin.CheckboxFollowsStoredField | any-parent.php:129-141 | once a status's field is stored, its box shows that field's truthiness |
| Plugin.FieldIdHasNoDefault | any-parent.php:107 | no checkbox field is one of the default fields |
| Plugin.SavedChoiceIsRendered | any-parent.php:177-199 | after a "1" or "0" is validated and saved, the next start-up checks the box exactly when "1" was submitted |
| Plugin.Start | any-parent.php:42-50 | start-up caches the loaded record, in which both default fields are set, and passes on its write request; a scalar stored record is fatal |
| Plugin.AnyParentPlugin.ExtraPluginLinksPrimary | any-parent.php:255-263 | on another plugin's row the links come back unchanged |
| Plugin.AnyParentPlugin.ExtraPluginLinksSecondary | any-parent.php:264-276 | on another plugin's row the links come back unchanged |
| Plugin.PrimaryLinksAppended | any-parent.php:255-263 | on the plugin's row exactly the Settings link is appended after the existing links, whose string-keyed entries stay in place |
| Plugin.SecondaryLinksAppended | any-parent.php:264-276 | on the plugin's row the Flattr, Donate and Settings links are appended in that order after the existing links |
| Plugin.OwnRowOnly | any-parent.php:256 | for a non-numeric base name the links are added exactly on the row with that name |

## Left out

- Hook and settings registration (`add_action`, `add_filter`, `register_setting`, `add_settings_section`, `add_settings_field`, `add_options_page`, the `init` hook at the end of the file): calls into WordPress with no logic of their own. The pre-check decision inside `register_settings` is modelled.
- Translation (`load_plugin_textdomain`, `esc_html__`, `esc_attr_e`) and escaping: the link and label texts are constants in English.
- The HTML that `input_checkbox`, `input_textfield`, `anyparent_defaults` and `options_page` echo: only the checked state is modelled.
- `user_has_admin`, the `wp_die` permission halt, and the WordPress version warning (`get_bloginfo`, `version_compare`): host calls with no array logic.
- The post-types loop in `register_settings`: its body is empty.
- The singleton in `__construct`: returning from a constructor has no effect in PHP. Start-up is modelled as `Plugin.Start`.
- `input_textfield`: no field uses it.
- PhpValues.LooseEq: floats are not modelled. Decimal and exponent numeric strings such as "1.0" or "1e0" are treated as non-numeric text. Integer strings beyond the 64-bit range are compared as exact integers, where PHP compares them as floats, or as text when both strings are out of range: PHP finds "099999999999999999999" == "99999999999999999999" false and 9223372036854775807 == "9223372036854775808" true, the model the opposite in both cases.
- PhpValues.WellFormedKey: it rules out every string key holding the canonical text of an integer, including texts beyond the 64-bit range, which PHP keeps as string keys.
- Objects: the registry's status objects are reduced to their labels.
- Fatal error messages are indicative; they are not PHP's exact wording for every case.
- Plugin.AnyParentPlugin.ExtraPluginLinksPrimary: its contract states only the unchanged case; the appended case is stated by `Plugin.PrimaryLinksAppended`, for link arrays with distinct keys.
- Plugin.AnyParentPlugin.ExtraPluginLinksSecondary: the same, with `Plugin.SecondaryLinksAppended`.
- Plugin.Start: the start-up uses `get_all_options` as written. Its record is the same under the corrected version (`Options.IntendedLoadsSameRecord`); only the target of the write request differs.

## Findings

| source | as written | input that shows it | evidently intended | confidence | as-written member | corrected member |
|---|---|---|---|---|---|---|
| any-parent.php:221 | the loop variable `$name` overwrites the option name set at line 207, so `update_option` at line 228 writes the completed record to the option "version" | an empty option store: the load fills both defaults and asks to write them to "version"; after that write the next load finds the same empty record and asks again, on every request | the completed record is written under "anyparent_plugin", and the next load finds it complete and writes nothing | not executed | Options.AsWrittenNeverSettles | Options.IntendedLoadSettles |
