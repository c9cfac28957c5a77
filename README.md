# winregenv, modelled in Dafny

winregenv is a small Python package over the standard `winreg` module. It
offers:

- a `RegistryRoot` object that scopes every operation to one hive, an
  optional key-path prefix and a registry view (native or 32-bit);
- a read-only mode, and a write gate that refuses writes to the hives that
  need an elevated process unless the process is elevated;
- the base operations `ensure_registry_key_exists`, `put_registry_value`,
  `put_registry_subkey`, `get_registry_value`, `list_registry_values`,
  `list_registry_subkeys`, `head_registry_key`, `delete_registry_value` and
  `delete_registry_key`;
- the `RegistryKey` context manager, which opens a key and closes its handle;
- the translation of Windows `OSError`s into a family of `RegistryError`
  classes;
- the immutable `RegistryValue` record (name, data, type);
- the translation between Python data and the `REG_*` value types: type
  names, type inference for untyped writes, and validation against an
  explicit type.

The project models that core. The parts and where they live:

- `Wrappers.dfy`: `Option`, `Result` and `Outcome`.
- `Text.dfy`: ASCII `str.upper`, `str(int)`, substring tests and the `repr` of a string.
- `PyValues.dfy`: the Python values the package inspects, with Python's `==` and `hash`.
- `Translation.dfy`: `registry_translation.py`.
- `Errors.dfy`: `registry_errors.py`.
- `Types.dfy`: `registry_types.py`.
- `OsRegistry.dfy`: the Windows registry as the winreg primitives see it. It is a `Registry` class:
  - a map from key locations (hive, view, list of key names) to keys;
  - a table of open handles;
  - a call log;
  - a fixed map of injected faults, which gives the `OSError` any primitive call reports.
- `ContextManagers.dfy`: `registry_context_managers.py`. `RegistryKey` is a class whose `Enter`/`Exit` methods update the handle field.
- `Paths.dfy`: `_join_registry_paths`, the Windows `os.path.split`, and the registry's own reading of a key path.
- `Base.dfy`: `registry_base.py`. Each operation is a method on the OS registry, proved equal to a pure specification function of the store and the faults. The methods open and close keys through `RegistryKey` as the source does, and the two list operations keep their `while True` loops. `delete_registry_key` alone departs from the source: it finds the parent key and the name by splitting at the last backslash only, the corrected split of the Findings section; `DeleteKeyWith(NtSplit, ...)` is the operation as written, and `DeleteKeySplitsAgree` shows the two agree on every well-formed path without '/'.
- `BaseProperties.dfy`: what those operations promise:
  - read-after-write;
  - complete, ordered enumeration;
  - no partial list on a failure;
  - idempotent value deletion;
  - not-found and not-empty errors;
  - which key `delete_registry_key` removes.
  - every write keeps the store well-formed (`WellFormedStore`: each key's parent exists and lists it, and each listed subkey is stored), and a created subkey is then listed under its parent.
- `Interface.dfy`: `registry_interface.py`:
  - the root-key names;
  - the write gate, with its elevation cache;
  - `RegistryRoot` as a class whose methods gate, then delegate to the base operations.

Exceptions are values:

- `RegistryError(kind, args, winerror, strerror)` for the package's own errors;
- `BuiltinError` for Python's `TypeError`, `ValueError` and `IndexError`;
- `Fault` for either.

An operation that raises returns `Failure`/`Fail` of the exception it would raise.

## Model

| member | source | states |
|---|---|---|
| RegistryTranslation.NameTablesInverse | src/winregenv/registry_translation.py:39-62 | the name-to-type table is exactly the inverse of the type-to-name table |
| RegistryTranslation.GetRegTypeName | src/winregenv/registry_translation.py:56-58 | a known tag gets its table name; any other gets `UnknownType(n)` |
| RegistryTranslation.TypeNameInjective | src/winregenv/registry_translation.py:56-58 | two tags with the same display name are the same tag, known or unknown |
| RegistryTranslation.KnownNamesStartWithReg | src/winregenv/registry_translation.py:39-54 | every table name starts with `REG_` |
| RegistryTranslation.TableNamesAreUpper | src/winregenv/registry_translation.py:39-54 | every table name is already upper case |
| RegistryTranslation.NormalizeRegistryTypeInput | src/winregenv/registry_translation.py:64-129 | succeeds exactly on a known int tag, a little-endian alias, an int among the host's `REG_*` constants, or a known name in any case. A failure is `TypeError` exactly when the input is neither int nor str, else `ValueError`. A string always yields a tag from the table |
| RegistryTranslation.NameRoundTrip | src/winregenv/registry_translation.py:56-62 | the name of every known tag normalizes back to that tag |
| RegistryTranslation.NormalizeAliasInts | src/winregenv/registry_translation.py:89-94 | the little-endian alias integers normalize to `REG_DWORD` and `REG_QWORD` |
| RegistryTranslation.NormalizeDwordAliasName | src/winregenv/registry_translation.py:114-116 | the name `REG_DWORD_LITTLE_ENDIAN` normalizes to `REG_DWORD` |
| RegistryTranslation.NormalizeQwordAliasName | src/winregenv/registry_translation.py:117-119 | the name `REG_QWORD_LITTLE_ENDIAN` normalizes to `REG_QWORD` |
| RegistryTranslation.NormalizeUnknownInt | src/winregenv/registry_translation.py:95-105 | an int outside the table normalizes to itself exactly when it is a host `REG_*` constant; otherwise it is a `ValueError` |
| RegistryTranslation.NormalizeCaseInsensitive | src/winregenv/registry_translation.py:106-112 | a type name's case does not change the result |
| RegistryTranslation.NormalizeIdempotent | src/winregenv/registry_translation.py:64-129 | a normalized tag normalizes to itself |
| RegistryTranslation.InferRegistryTypeForNewValue | src/winregenv/registry_translation.py:136-207 | the data passes through unchanged. `str` maps to `REG_SZ`, an int in [-2^31, 2^32-1] to `REG_DWORD`, `bytes` to `REG_BINARY` and a list of str to `REG_MULTI_SZ`. Success holds exactly in those cases; an out-of-range int is a `ValueError` and anything else a `TypeError` |
| RegistryTranslation.InferNeverWidens | src/winregenv/registry_translation.py:167-180 | inference only ever yields `REG_SZ`, `REG_DWORD`, `REG_BINARY` or `REG_MULTI_SZ`, never a QWORD |
| RegistryTranslation.ValidateAndConvertDataForType | src/winregenv/registry_translation.py:212-316 | accepts exactly data of the tag's Python type within the DWORD or QWORD range. It returns the data unchanged, or `None` for `REG_NONE`. A failure is `ValueError` exactly when the type is right and the range is not; an unknown tag is a `TypeError` |
| RegistryTranslation.IgnoredDataWarningExact | src/winregenv/registry_translation.py:293-301 | `REG_NONE` warns about discarded data exactly when the data is neither `None` nor `b''` |
| RegistryTranslation.InferredIsValid | src/winregenv/registry_translation.py:136-316 | whatever inference yields, validation against the inferred tag accepts unchanged |
| RegistryTranslation.ValidateIdempotent | src/winregenv/registry_translation.py:212-316 | validated data validates to itself |
| RegistryTranslation.HostOnlyTagsRejected | src/winregenv/registry_translation.py:96-100 | a host-only `REG_*` integer passes normalization but always fails validation with `TypeError` |
| PyValues.PyHash | src/winregenv/registry_types.py:179-192 | a list is unhashable, and so is a dict, set or other mutable object; an instance is hashed by identity |
| PyValues.PyEq | src/winregenv/registry_types.py:158-177 | Python `==` as the record comparison uses it: a list never equals a tuple, a string equals only the same string, a number equals only a number of the same value, and a list equals only a list of the same length |
| PyValues.PyEqReflexive | src/winregenv/registry_types.py:158-177 | Python `==` on the modelled values is reflexive |
| PyValues.PyEqSameHash | src/winregenv/registry_types.py:179-192 | values that compare equal have the same hash, and one is hashable exactly when the other is |
| RegistryTypes.MakeValue | src/winregenv/registry_types.py:28-50 | the record keeps name and type. `REG_MULTI_SZ` list data is stored as the tuple of the same elements; all other data as given. No stored record holds a `REG_MULTI_SZ` list |
| RegistryTypes.MakeValueIdempotent | src/winregenv/registry_types.py:28-50 | rebuilding a record from its own fields gives the same record |
| RegistryTypes.ListAndTupleBuildSameRecord | src/winregenv/registry_types.py:44-50 | a list and the tuple of its elements build the same `REG_MULTI_SZ` record |
| RegistryTypes.TypeName | src/winregenv/registry_types.py:74-77 | a known tag's `type_name` is its table name |
| RegistryTypes.Items | src/winregenv/registry_types.py:117-124 | iteration yields exactly three items: the name, the data and the type tag, in that order |
| RegistryTypes.GetItem | src/winregenv/registry_types.py:126-146 | a key `==` to 0 gives the name, to 1 the data, to 2 the type tag; indexing succeeds exactly for such keys, and anything else is an `IndexError` |
| RegistryTypes.GetItemMatchesItems | src/winregenv/registry_types.py:117-146 | indexing by 0, 1 or 2 agrees with iteration, and every other integer, negatives included, is an `IndexError` |
| RegistryTypes.Equals | src/winregenv/registry_types.py:158-177 | a record equals itself; records that compare equal have the same name and the same type |
| RegistryTypes.EqualsObject | src/winregenv/registry_types.py:165-177 | a record equals only a 3-tuple whose first item is the record's name string and whose third item is a number equal to its type |
| RegistryTypes.EqualsIffEqualsFieldTuple | src/winregenv/registry_types.py:158-177 | a record equals another record exactly when it equals that record's field tuple |
| RegistryTypes.EqualsConstructorTuple | src/winregenv/registry_types.py:165-176 | a record equals the (name, data, type) tuple it was built from, list data included |
| RegistryTypes.EqualsReflexiveSymmetric | src/winregenv/registry_types.py:158-177 | record equality is reflexive and symmetric |
| RegistryTypes.PyEqSymmetric | src/winregenv/registry_types.py:158-177 | Python `==` on the data is symmetric |
| RegistryTypes.Hash | src/winregenv/registry_types.py:179-192 | a record is hashable exactly when its data is |
| RegistryTypes.UnhashableObjectRecord | src/winregenv/registry_types.py:179-192 | a record whose data is a dict, set or other unhashable object cannot be hashed, as the `__hash__` docstring warns |
| RegistryTypes.EqualRecordsHashEqual | src/winregenv/registry_types.py:158-192 | equal records have equal hashes |
| RegistryTypes.MultiStringRecordHashable | src/winregenv/registry_types.py:28-50 | a `REG_MULTI_SZ` record built from a list of strings is hashable |
| RegistryTypes.ExpandedData | src/winregenv/registry_types.py:79-115 | non-`REG_EXPAND_SZ` or non-str data gives `None`. Otherwise: the expansion on success, or, exactly when expansion fails, a `RegistryExpansionError` without a code whose message names the value and shows the data's `repr` (`StrRepr`) |
| Text.ReprQuote | src/winregenv/registry_types.py:110-112 | `repr` quotes with '"' exactly when the string holds a single quote and no double quote, else with "'" |
| Text.StrRepr | src/winregenv/registry_types.py:110-112 | `repr(s)` starts and ends with its quote character |
| Text.UnescapeEscape | src/winregenv/registry_types.py:110-112 | the escaped body of `repr` decodes back to the string: no two strings are shown alike |
| Text.ReprOfPlain | src/winregenv/registry_types.py:110-112 | a string of printable characters without quotes or backslashes is shown between single quotes unchanged |
| Text.EscapeBackslash | src/winregenv/registry_types.py:110-112 | a backslash in the data is shown doubled |
| RegistryErrors.Raise | src/winregenv/registry_errors.py:7-12 | an error raised with a message has that single argument and no code |
| RegistryErrors.Str | src/winregenv/registry_errors.py:14-16 | `str()` is the first argument, or the class name without one |
| RegistryErrors.StrOfRaised | src/winregenv/registry_errors.py:7-16 | an error raised with a message prints as that message |
| RegistryErrors.KindForCode | src/winregenv/registry_errors.py:41-48 | through the `_ERROR_MAP` table (`ErrorMapEntry`), code 2 maps to not-found, 5 to permission and 247 to not-empty, exactly; everything else maps to the base class |
| RegistryErrors.HeadContainsPath | src/winregenv/registry_errors.py:68-80 | the message head always contains the path, so the "is not empty" prefix branch never fires |
| RegistryErrors.ComposeMessageIsPlain | src/winregenv/registry_errors.py:68-80 | the message `ComposeMessage` builds is head, then value part, then code part, never prefixed |
| RegistryErrors.ComposeMessageShape | src/winregenv/registry_errors.py:68-75 | the message starts with the head, names the value when one is given, and ends in ")" exactly when there is a code or a non-empty message |
| RegistryErrors.HandleWinregError | src/winregenv/registry_errors.py:51-102 | an `OSError` becomes the mapped class carrying its code, its strerror and the composed message; an error already translated is re-raised unchanged |
| RegistryErrors.TranslatedMessage | src/winregenv/registry_errors.py:51-102 | a translated error prints as head, value part and code part |
| RegistryErrors.CatchOuter | src/winregenv/registry_errors.py:82-91 | an outer `except OSError` handler passes an already translated error through unchanged |
| RegistryErrors.RehandleIdempotent | src/winregenv/registry_errors.py:82-91 | re-raising through any number of handlers keeps class, message and codes |
| OsRegistry.LastIndexOf | src/winregenv/registry_base.py:484 | the index is the last occurrence of the character, or none occurs |
| OsRegistry.Pieces | src/winregenv/registry_context_managers.py:52-57 | a key path names at least one key; no name contains a backslash |
| OsRegistry.FindValue | src/winregenv/registry_base.py:219-233 | the found entry is stored under that name, and none means no entry has it |
| OsRegistry.Upsert | src/winregenv/registry_base.py:138-140 | after writing, the name finds the written entry, and every other name finds what it found before |
| OsRegistry.RemoveValue | src/winregenv/registry_base.py:414-424 | after removal no entry has the name; an entry is kept exactly when it was there and has another name, and the kept entries are a subsequence of the old ones (order kept) |
| OsRegistry.WithKey | src/winregenv/registry_base.py:94-98 | after creation the key exists. Every key that existed keeps its values and at least its subkeys. Every added key is an empty-valued ancestor of (or is) the created key, in its hive and view. A new non-root key has no subkeys or values and is listed under its parent |
| OsRegistry.WithKeyExisting | src/winregenv/registry_base.py:94-98 | creating a key that exists changes nothing |
| OsRegistry.WithoutKey | src/winregenv/registry_base.py:490-499 | after deletion the key is gone, no key is added, and every key other than it and its parent is unchanged |
| OsRegistry.AddChildWellFormed | src/winregenv/registry_base.py:94-98 | adding a missing key below an existing parent keeps the store well-formed: every key's parent exists and lists it, and every listed subkey is stored |
| OsRegistry.WithKeyWellFormed | src/winregenv/registry_base.py:94-98 | creating a key, with its missing ancestors, keeps the store well-formed |
| OsRegistry.NodeUpdateWellFormed | src/winregenv/registry_base.py:138-140 | changing a key's values or write time, but not its subkeys, keeps the store well-formed |
| OsRegistry.WithValueWellFormed | src/winregenv/registry_base.py:138-140 | writing a value to an existing key keeps the store well-formed |
| OsRegistry.WithoutValueWellFormed | src/winregenv/registry_base.py:414-424 | deleting a value from an existing key keeps the store well-formed |
| OsRegistry.WithoutKeyWellFormed | src/winregenv/registry_base.py:490-499 | deleting a stored key without subkeys keeps the store well-formed |
| OsRegistry.EnumValueOutcome | src/winregenv/registry_base.py:270-280 | a successful enumeration step yields the value at that index |
| OsRegistry.EnumKeyOutcome | src/winregenv/registry_base.py:318-328 | a successful enumeration step yields the subkey name at that index |
| OsRegistry.QueryInfoOutcome | src/winregenv/registry_base.py:369 | the counts are those of the key's subkeys and values |
| OsRegistry.Registry.OpenKey | src/winregenv/registry_context_managers.py:52-57 | the result is the modelled outcome; on success a fresh handle for the key is added, and the store is unchanged |
| OsRegistry.Registry.CreateKeyEx | src/winregenv/registry_base.py:96 | on success the store gains the key (and any missing ancestors) and a fresh handle for it is added; on failure nothing changes |
| OsRegistry.Registry.CloseKey | src/winregenv/registry_context_managers.py:72 | the handle is released whatever the reported result |
| OsRegistry.Registry.QueryValueEx | src/winregenv/registry_base.py:223 | returns the stored data and type, or not-found |
| OsRegistry.Registry.SetValueEx | src/winregenv/registry_base.py:139 | on success the store holds the entry |
| OsRegistry.Registry.EnumValue | src/winregenv/registry_base.py:272 | returns the i-th value, or no-more-items |
| OsRegistry.Registry.EnumKey | src/winregenv/registry_base.py:320 | returns the i-th subkey name, or no-more-items |
| OsRegistry.Registry.QueryInfoKey | src/winregenv/registry_base.py:369 | returns the key's counts and write time |
| OsRegistry.Registry.DeleteValue | src/winregenv/registry_base.py:418 | on success the value is removed; otherwise the store is unchanged |
| OsRegistry.Registry.DeleteKey | src/winregenv/registry_base.py:494 | on success the empty child key is removed; otherwise the store is unchanged |
| RegistryContext.EffectiveAccess | src/winregenv/registry_context_managers.py:45-47 | the mask selects the 32-bit view exactly when asked or already set; other bits are unchanged |
| RegistryContext.StandardMasksSelectView | src/winregenv/registry_base.py:83-85 | each access mask the package uses opens exactly the requested view |
| RegistryContext.RegistryKey.constructor | src/winregenv/registry_context_managers.py:27-32 | stores its arguments; no handle is held |
| RegistryContext.RegistryKey.Enter | src/winregenv/registry_context_managers.py:34-62 | opens the target with the effective access and holds the new handle. An OS error is translated against the subkey path, and no handle is acquired |
| RegistryContext.RegistryKey.Exit | src/winregenv/registry_context_managers.py:65-82 | a held handle is closed and released even if the close reports an error, and the field is cleared; without a handle nothing is called |
| RegistryPaths.SplitRoot | src/winregenv/registry_base.py:45 | root and rest concatenate to the path; the root is empty or one separator |
| RegistryPaths.NtJoinParts | src/winregenv/registry_base.py:45 | `NtJoin` (Windows `os.path.join`): an absolute second path replaces the first; otherwise the result is the first path, then one backslash exactly when the first is non-empty and does not end in a separator, then the second |
| RegistryPaths.ReplaceSlashes | src/winregenv/registry_base.py:45 | every '/' becomes '\\' and nothing else changes |
| RegistryPaths.JoinRegistryPaths | src/winregenv/registry_base.py:27-45 | an empty side yields the other side; a join of two non-empty sides contains no '/' |
| RegistryPaths.JoinPlain | src/winregenv/registry_base.py:27-45 | two relative paths are joined with exactly one backslash |
| RegistryPaths.JoinAbsolute | src/winregenv/registry_base.py:45 | an absolute path discards the prefix |
| RegistryPaths.JoinedPathSegments | src/winregenv/registry_base.py:27-45 | the joined path addresses the key below the prefix's key |
| RegistryPaths.AfterLastSep | src/winregenv/registry_base.py:484 | the index is just past the last separator of either kind |
| RegistryPaths.StripTrailingSeps | src/winregenv/registry_base.py:484 | the result is a prefix of the input with no trailing separator, and every character removed is a separator |
| RegistryPaths.NtSplitParts | src/winregenv/registry_base.py:484 | `NtSplit` (Windows `os.path.split`): the head is a prefix of the path and the tail a suffix; only separators lie between them, and the tail holds no separator of either kind |
| RegistryPaths.SplitKeyPath | src/winregenv/registry_base.py:484 | the name part holds no backslash (corrected split, see Findings) |
| RegistryPaths.SplitKeyPathAddressesSameKey | src/winregenv/registry_base.py:484-490 | for a well-formed path, parent plus name address the same key as the path |
| RegistryPaths.NtSplitAgrees | src/winregenv/registry_base.py:484 | on a well-formed key path without '/', the Windows split and the corrected split agree |
| RegistryPaths.LastSepOfJoined | src/winregenv/registry_base.py:45 | where the last backslash of a joined path is |
| RegistryPaths.PiecesOfJoined | src/winregenv/registry_base.py:45 | the key names of a joined path are those of its halves |
| RegistryPaths.PiecesOfJoinNames | src/winregenv/registry_context_managers.py:52-57 | joining key names without backslashes by backslashes and reading them back gives the same names |
| RegistryPaths.JoinNamesOfPieces | src/winregenv/registry_context_managers.py:52-57 | a key path is the join of its own key names |
| RegistryBase.UnixTimestamp | src/winregenv/registry_base.py:24-25 | seconds times 10^7 equals the FILETIME minus the 1970 epoch |
| RegistryBase.Opened | src/winregenv/registry_context_managers.py:34-62 | entering succeeds exactly when the open reports no error, with the key and effective access |
| RegistryBase.CreateAndClose | src/winregenv/registry_base.py:81-100 | after a successful create-and-close the key exists |
| RegistryBase.CreateAndCloseKey | src/winregenv/registry_base.py:81-100 | result and store equal `CreateAndClose`; the handle table is as before |
| RegistryBase.EnsureRegistryKeyExists | src/winregenv/registry_base.py:57-100 | equals `EnsureSpec` on the joined path; an empty path calls nothing |
| RegistryBase.PutRegistryValue | src/winregenv/registry_base.py:103-142 | equals `PutValueSpec`: ensure the key, open it for setting, write the entry; errors are translated with the value name |
| RegistryBase.PutRegistrySubkey | src/winregenv/registry_base.py:145-186 | equals `PutSubkeySpec`: ensure the parent, then create and close the joined subkey |
| RegistryBase.GetRegistryValue | src/winregenv/registry_base.py:189-238 | equals `GetValueSpec`; the store is unchanged. A missing value is `RegistryValueNotFoundError` with its message, and a missing key is translated |
| RegistryBase.ListRegistryValues | src/winregenv/registry_base.py:241-286 | the loop's result equals `ListValuesSpec`; the store and handles are unchanged |
| RegistryBase.ListRegistrySubkeys | src/winregenv/registry_base.py:289-334 | the loop's result equals `ListSubkeysSpec`; the store and handles are unchanged |
| RegistryBase.HeadRegistryKey | src/winregenv/registry_base.py:337-386 | equals `HeadSpec`: counts and the timestamp from `QueryInfoKey` |
| RegistryBase.DeleteRegistryValue | src/winregenv/registry_base.py:389-429 | equals `DeleteValueSpec`; a missing value is not an error |
| RegistryBase.CheckKeyEmpty | src/winregenv/registry_base.py:458-479 | equals `CheckEmpty`: the key must open and report no subkeys and no values |
| RegistryBase.DeleteKeyThroughParent | src/winregenv/registry_base.py:484-504 | equals `DeleteThroughParent`: open the parent, delete the child by name |
| RegistryBase.DeleteRegistryKey | src/winregenv/registry_base.py:432-504 | equals `DeleteKeySpec`, which splits the path at the last backslash only (the corrected split of the Findings section, not the Windows split of line 484); the empty path is a `ValueError` before any call |
| RegistryBaseProperties.AsRecords | src/winregenv/registry_base.py:272-274 | one record per stored entry, in order |
| RegistryBaseProperties.PutThenGet | src/winregenv/registry_base.py:103-238 | after a successful write, reading the value gives the record of what was written |
| RegistryBaseProperties.ValuesFromRest | src/winregenv/registry_base.py:268-281 | enumerating from index i yields the remaining values in order |
| RegistryBaseProperties.ListValuesComplete | src/winregenv/registry_base.py:241-286 | listing an existing key yields all its values, in order |
| RegistryBaseProperties.SubkeysFromRest | src/winregenv/registry_base.py:316-329 | enumerating from index i yields the remaining subkey names in order |
| RegistryBaseProperties.ListSubkeysComplete | src/winregenv/registry_base.py:289-334 | listing an existing key yields all its subkey names, in order |
| RegistryBaseProperties.ValuesFromFailure | src/winregenv/registry_base.py:276-280 | an enumeration error other than no-more-items fails the whole listing with that error translated; no partial list is returned |
| RegistryBaseProperties.MissingKeyNotFound | src/winregenv/registry_base.py:189-504 | every operation that opens a missing key reports not-found, and the deletions leave the store unchanged |
| RegistryBaseProperties.DeleteValueIdempotent | src/winregenv/registry_base.py:389-429 | deleting a value twice succeeds both times; the second changes nothing, and reading it reports value-not-found |
| RegistryBaseProperties.DeleteNonEmptyKeyRefused | src/winregenv/registry_base.py:463-471 | a key with subkeys or values is refused as not empty, with the message naming the path and both counts, and the store is unchanged |
| RegistryBaseProperties.DeleteRootRefused | src/winregenv/registry_base.py:455-456 | deleting the hive itself is a `ValueError` and changes nothing |
| RegistryBaseProperties.DeleteKeyRemovesCheckedKey | src/winregenv/registry_base.py:432-504 | a successful delete of a well-formed path removed the key it checked, which existed and was empty, and nothing else |
| RegistryBaseProperties.DeleteKeySplitsAgree | src/winregenv/registry_base.py:484 | on a well-formed key path without '/', `delete_registry_key` with the Windows split of line 484 (`DeleteKeyWith(NtSplit, ...)`) and with the corrected split give the same result and store |
| RegistryBaseProperties.EnsureWellFormed | src/winregenv/registry_base.py:57-100 | `ensure_registry_key_exists` keeps the store well-formed, whatever fails |
| RegistryBaseProperties.PutValueWellFormed | src/winregenv/registry_base.py:103-142 | `put_registry_value` keeps the store well-formed, whatever fails |
| RegistryBaseProperties.PutSubkeyWellFormed | src/winregenv/registry_base.py:145-186 | `put_registry_subkey` keeps the store well-formed, whatever fails |
| RegistryBaseProperties.DeleteValueWellFormed | src/winregenv/registry_base.py:389-429 | `delete_registry_value` keeps the store well-formed, whatever fails |
| RegistryBaseProperties.DeleteKeyWellFormed | src/winregenv/registry_base.py:432-504 | `delete_registry_key` keeps the store well-formed, with either split and whatever fails |
| RegistryBaseProperties.SubkeyPathSegments | src/winregenv/registry_base.py:145-186 | a single key name joined below a parent addresses the parent's key plus that name |
| RegistryBaseProperties.StoredChildListed | src/winregenv/registry_base.py:289-334 | in a well-formed store, listing the parent of a stored key succeeds and includes its name |
| RegistryBaseProperties.PutSubkeyThenListed | src/winregenv/registry_base.py:145-334 | after a successful `put_registry_subkey`, the store is well-formed and listing the parent's subkeys includes the new name |
| RegistryBaseProperties.SlashPathSplits | src/winregenv/registry_base.py:484 | the Windows split breaks "a/b" at '/', while the registry reads "a/b" as one key name |
| RegistryBaseProperties.SlashStoreWellFormed | src/winregenv/registry_base.py:484 | the example store of the finding is well-formed |
| RegistryBaseProperties.DeleteKeyAsWrittenDeletesOtherKey | src/winregenv/registry_base.py:484 | as written, deleting the empty key "a/b" deletes the non-empty key "a\b" instead |
| RegistryBaseProperties.DeleteKeyCorrectedDeletesCheckedKey | src/winregenv/registry_base.py:484 | with the corrected split, the same call deletes "a/b" and keeps "a\b" |
| RegistryInterface.RootKeyNamesStartWithH | src/winregenv/registry_interface.py:54-81 | every root key name starts with 'H' |
| RegistryInterface.DisplayNamesMapBack | src/winregenv/registry_interface.py:54-92 | each display name of `_ROOT_KEY_INT_TO_NAME` (`RootKeyDisplayEntry`) is upper case and maps back to its hive |
| RegistryInterface.NormalizeRootKey | src/winregenv/registry_interface.py:95-109 | an int (or bool) is returned as the integer it stands for. A str succeeds exactly when its upper case is a mapping name, and then names a hive. Anything else is a `TypeError` |
| RegistryInterface.DisplayName | src/winregenv/registry_interface.py:85-92 | HKEY_CLASSES_ROOT, HKEY_CURRENT_USER, HKEY_LOCAL_MACHINE and HKEY_USERS are shown as HKCR, HKCU, HKLM and HKU; an unknown handle is shown as `UnknownRoot(...)` around its `str()`, which is `True`/`False` for a root key given as a bool |
| RegistryInterface.RootKeyText | src/winregenv/registry_interface.py:152-155 | `str()` of the stored root key: the decimal numeral that parses back to it, or `True`/`False` when it was given as a bool, which `normalize_root_key` returns unchanged |
| RegistryInterface.RootKeyNameRoundTrip | src/winregenv/registry_interface.py:85-109 | a hive's display name normalizes back to it; any other handle's name is a `ValueError` |
| RegistryInterface.NormalizeRootKeyCaseInsensitive | src/winregenv/registry_interface.py:102-107 | root key names are case-insensitive |
| RegistryInterface.AbbreviationsAlias | src/winregenv/registry_interface.py:54-81 | HKCR, HKCU, HKLM and HKU, in any case, name the same hives as the full names |
| RegistryInterface.NotElevatedError | src/winregenv/registry_interface.py:183-185 | a permission error |
| RegistryInterface.ProbeFailedError | src/winregenv/registry_interface.py:174-180 | a permission error |
| RegistryInterface.Gate | src/winregenv/registry_interface.py:157-185 | every refusal is a permission error. The probe is asked exactly when writable, the hive needs elevation and nothing is cached. A call that does not probe leaves the cache as it was; a probe answer is cached; a failing probe is reported as `ProbeFailedError` and not cached. With the status known, an elevation hive gets `Verdict` of it. A write passes exactly when writable, and either the hive needs no elevation or the process is known to be elevated |
| RegistryInterface.Verdict | src/winregenv/registry_interface.py:183-185 | with the status known, an elevation hive passes exactly when elevated |
| RegistryInterface.RunGate | src/winregenv/registry_interface.py:157-185 | successive checks give one verdict per check |
| RegistryInterface.CachedVerdictStable | src/winregenv/registry_interface.py:172-185 | once the status is cached, the probe is never asked and every check gives the same verdict |
| RegistryInterface.VerdictStable | src/winregenv/registry_interface.py:172-185 | while the probe answers, it is asked at most once per instance and every check gives the first verdict |
| RegistryInterface.ProbeFailureNotCached | src/winregenv/registry_interface.py:174-180 | a failing probe is reported and not cached, so the next check asks again |
| RegistryInterface.ResolveValueForWrite | src/winregenv/registry_interface.py:210-220 | without a type the data is inferred. With one, a normalization error is passed through; otherwise the data is validated against the normalized tag, giving the converted data with that tag or the validation error |
| RegistryInterface.ResolvedIsValid | src/winregenv/registry_interface.py:210-230 | every pair written is accepted unchanged by validation and carries a tag of the table |
| RegistryInterface.Lift | src/winregenv/registry_interface.py:222-230 | lifting keeps success and failure |
| RegistryInterface.RegistryRoot.constructor | src/winregenv/registry_interface.py:119-150 | the cache starts as known-elevated when the check is ignored, else unknown |
| RegistryInterface.RegistryRoot.RootKeyName | src/winregenv/registry_interface.py:152-155 | the four abbreviated hives show as HKCR, HKCU, HKLM and HKU, and a bool root as `UnknownRoot(True)` or `UnknownRoot(False)`; the name normalizes back to the root for a hive, and is a `ValueError` otherwise |
| RegistryInterface.RegistryRoot.CheckWritePermission | src/winregenv/registry_interface.py:157-185 | verdict, new cache and probe count equal `Gate` |
| RegistryInterface.RegistryRoot.PutRegistryValue | src/winregenv/registry_interface.py:187-230 | a gate refusal is returned as is, with the store and the call log unchanged. Otherwise: resolve the data and type, then the base write under the prefix |
| RegistryInterface.RegistryRoot.PutRegistrySubkey | src/winregenv/registry_interface.py:232-256 | a gate refusal is returned as is, with the store and the call log unchanged; otherwise the base `put_registry_subkey` under the prefix |
| RegistryInterface.RegistryRoot.GetRegistryValue | src/winregenv/registry_interface.py:258-284 | ungated base read under the prefix; the store is unchanged |
| RegistryInterface.RegistryRoot.ListRegistryValues | src/winregenv/registry_interface.py:286-308 | ungated base listing under the prefix |
| RegistryInterface.RegistryRoot.ListRegistrySubkeys | src/winregenv/registry_interface.py:310-332 | ungated base listing under the prefix |
| RegistryInterface.RegistryRoot.HeadRegistryKey | src/winregenv/registry_interface.py:334-359 | ungated base head under the prefix |
| RegistryInterface.RegistryRoot.DeleteRegistryValue | src/winregenv/registry_interface.py:361-384 | a gate refusal is returned as is, with the store and the call log unchanged; otherwise the base `delete_registry_value` under the prefix |
| RegistryInterface.RegistryRoot.DeleteRegistryKey | src/winregenv/registry_interface.py:386-408 | a gate refusal is returned as is, with the store and the call log unchanged; otherwise the base key deletion under the prefix, with the corrected backslash-only split (see Findings) |
| RegistryInterface.NewRegistryRoot | src/winregenv/registry_interface.py:119-150 | a bad root key raises the normalization error before any instance exists; otherwise the instance holds the normalized root, whether it was a bool, the prefix, all three flags, the initial elevation cache and zero probes |

## Left out

- Logging (`logger.debug`/`warning` calls) is not modelled. Only the `REG_NONE` warning condition is stated, as `IgnoredDataWarning`.
- `str.upper()` is modelled on ASCII letters only. Unicode case mapping is left out.
- Windows `os.path.join`/`os.path.split` are modelled without drive letters and UNC prefixes.
- `head_registry_key` returns a timestamp as an exact real number of seconds. The `datetime` object, floating point and time zones are left out.
- Exception chaining (`from e`), tracebacks and the text of Python's built-in `TypeError`/`ValueError`/`IndexError` messages are not modelled: a built-in error is its class only.
- `__repr__`/`__str__` of `RegistryValue` are left out.
- RegistryTypes.ExpandedData: the `repr` in its message (`Text.StrRepr`) escapes ASCII control characters, quotes and backslashes as Python does, but shows every non-ASCII character as is, while Python escapes the non-printable ones.
- `winreg`'s conversion of data on write and read is left out: the store keeps the data and tag as written. Registry key and value names are compared case-sensitively, while Windows compares them case-insensitively.
- `elevation_check.py`, `expand_variable.py` and `winapi.py` are not part of this model:
  - the elevation probe is a parameter of each gated call (`ProbeOutcome`);
  - environment-string expansion is a function parameter of `ExpandedData`.
- The host `winreg` module's set of `REG_*` attribute values is a parameter (`winregConstants`).
- Access-denied comes from the handle's access mask: queries and value enumeration need `KEY_QUERY_VALUE`, subkey enumeration needs `KEY_ENUMERATE_SUB_KEYS`, and setting or deleting a value needs `KEY_SET_VALUE`. `DeleteKey` also denies deleting a hive or a key that still has subkeys. Every other failure of a winreg primitive, apart from not-found, no-more-items and deleted keys, is an injected fault: a fixed map from call to `OSError`. The clock is a constant of the store.
- Permission checks against security descriptors, other processes and concurrent changes are left out.
- `RegistryValue` data is compared by Python `==` over `None`, bool, int, float (as an exact real), str, bytes, list, tuple and opaque objects. Dicts, sets and other objects compare by identity only (their contents are not modelled); dicts and sets are unhashable and other objects hash by identity. NaN is left out.
- The `name`, `data` and `type` properties and the `RegistryKey` re-export class in `registry_base` are plain field access or re-exports, and are not separate members.
- RegistryBase.DeleteRegistryKey: uses the corrected backslash-only split, so on a key path containing '/' it deletes the key it checked rather than the one `os.path.split` at registry_base.py:484 names. The as-written behaviour is `DeleteKeyWith(NtSplit, ...)`; `DeleteKeySplitsAgree` proves the two equal on every well-formed path without '/'.
- RegistryInterface.RegistryRoot.DeleteRegistryKey: delegates to `RegistryBase.DeleteRegistryKey`, so it carries the same corrected split and the same difference on paths containing '/'.
- RegistryInterface.RunGate: states only the verdict count per check. The verdicts themselves are stated by `CachedVerdictStable` and `VerdictStable`.

## Findings

| source | as written | input that shows it | evidently intended | confidence | as-written member | corrected member |
|---|---|---|---|---|---|---|
| src/winregenv/registry_base.py:484 | `delete_registry_key` finds the parent and name with the Windows `os.path.split`, which also splits at '/', while the emptiness check at lines 463-471 opened the full path, where '/' is an ordinary character of a key name | a hive holding an empty key named "a/b" directly below it, and a key "a\b" holding a value; `delete_registry_key(hive, "a/b")` | delete the key that was checked to be empty (split at the last backslash only) | not executed | RegistryBaseProperties.DeleteKeyAsWrittenDeletesOtherKey | RegistryBaseProperties.DeleteKeyCorrectedDeletesCheckedKey |
