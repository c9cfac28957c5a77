/** The exception taxonomy of the registry layer and the translation of
    Windows `OSError`s into it. */
module RegistryErrors {
  import opened Wrappers
  import opened Text
  import opened PyValues

  /** The exception classes: `RegistryError` and its subclasses. */
  datatype ErrorKind = Generic | KeyNotFound | ValueNotFound | KeyNotEmpty | Permission | Expansion

  function ClassName(kind: ErrorKind): string
  {
    match kind
      case Generic => "RegistryError"
      case KeyNotFound => "RegistryKeyNotFoundError"
      case ValueNotFound => "RegistryValueNotFoundError"
      case KeyNotEmpty => "RegistryKeyNotEmptyError"
      case Permission => "RegistryPermissionError"
      case Expansion => "RegistryExpansionError"
  }

  /** `RegistryPermissionError` also derives from `PermissionError`, so it is the
      only registry error an `except OSError` clause catches. */
  predicate IsOsErrorKind(kind: ErrorKind)
  {
    kind == Permission
  }

  /** The two not-found errors also derive from `LookupError`. */
  predicate IsLookupErrorKind(kind: ErrorKind)
  {
    kind == KeyNotFound || kind == ValueNotFound
  }

  /** A raised registry error: its class, its `args`, the Windows code and message. */
  datatype RegistryError = RegistryError(kind: ErrorKind, args: seq<string>, winerror: Option<int>, strerror: Option<string>)

  /** A registry error raised with just a message, as `RegistryXxxError(message)` does. */
  function Raise(kind: ErrorKind, message: string): (e: RegistryError)
    ensures e.kind == kind && e.args == [message] && e.winerror.None? && e.strerror.None?
  {
    RegistryError(kind, [message], None, None)
  }

  /** `RegistryError.__str__`: the first argument, or the class name without one. */
  function Str(e: RegistryError): (s: string)
    ensures |e.args| > 0 ==> s == e.args[0]
    ensures |e.args| == 0 ==> s == ClassName(e.kind)
  {
    if |e.args| > 0 then e.args[0] else ClassName(e.kind)
  }

  /** Every error raised with a message prints as exactly that message. */
  lemma StrOfRaised(kind: ErrorKind, message: string)
    ensures Str(Raise(kind, message)) == message
  {
  }

  /** Any exception the layer raises: its own errors or Python's built-in ones. */
  datatype Fault = Builtin(builtin: BuiltinError) | Registry(error: RegistryError)

  /** `_ERROR_MAP`: the exception class for a Windows error code. */
  function ErrorMapEntry(code: int): Option<ErrorKind>
  {
    match code
      case 2 => Some(KeyNotFound)
      case 5 => Some(Permission)
      case 183 => Some(Generic)
      case 206 => Some(Generic)
      case 247 => Some(KeyNotEmpty)
      case _ => None
  }

  /** `_ERROR_MAP.get(err_code, RegistryError)`. */
  function KindForCode(code: Option<int>): (kind: ErrorKind)
    ensures kind == KeyNotFound <==> code == Some(2)
    ensures kind == Permission <==> code == Some(5)
    ensures kind == KeyNotEmpty <==> code == Some(247)
    ensures kind in {Generic, KeyNotFound, Permission, KeyNotEmpty}
  {
    if code.Some? && ErrorMapEntry(code.value).Some? then ErrorMapEntry(code.value).value else Generic
  }

  /** Python's rendering of an optional string in an f-string. */
  function OptionalText(s: Option<string>): string
  {
    if s.Some? then s.value else "None"
  }

  /** Python truthiness of an optional string. */
  predicate Truthy(s: Option<string>)
  {
    s.Some? && s.value != ""
  }

  function MessageHead(path: string): string
  {
    "Registry operation failed on key '" + path + "'"
  }

  function ValuePart(name: Option<string>): string
  {
    if name.Some? then ", value '" + name.value + "'" else ""
  }

  function CodePart(code: Option<int>, strerror: Option<string>): string
  {
    if code.Some? then " (WinError " + IntToString(code.value) + ": " + OptionalText(strerror) + ")"
    else if Truthy(strerror) then " (" + strerror.value + ")"
    else ""
  }

  /** The message `_handle_winreg_error` composes, including the "is not empty"
      prefix it would add when the path were missing from the message. */
  function ComposeMessage(path: string, name: Option<string>, code: Option<int>, strerror: Option<string>): string
  {
    var message := MessageHead(path) + ValuePart(name) + CodePart(code, strerror);
    if KindForCode(code) == KeyNotEmpty && !Contains(message, path) then
      "Registry key '" + path + "' is not empty. " + message
    else message
  }

  /** The operation head names the path, so the "is not empty" prefix (added only
      when the path is missing from the message) never fires. */
  lemma {:induction false} HeadContainsPath(path: string, rest: string)
    ensures Contains(MessageHead(path) + rest, path)
  {
    var lead := "Registry operation failed on key '";
    ContainsInfix(lead, path, "'" + rest);
    assert lead + path + ("'" + rest) == MessageHead(path) + rest;
  }

  lemma ComposeMessageIsPlain(path: string, name: Option<string>, code: Option<int>, strerror: Option<string>)
    ensures ComposeMessage(path, name, code, strerror) == MessageHead(path) + ValuePart(name) + CodePart(code, strerror)
  {
    HeadContainsPath(path, ValuePart(name) + CodePart(code, strerror));
    assert MessageHead(path) + (ValuePart(name) + CodePart(code, strerror))
        == MessageHead(path) + ValuePart(name) + CodePart(code, strerror);
  }

  /** The composed message always begins with the operation head, names the value
      when one is given, and ends in a parenthesised detail exactly when there is a
      code or a non-empty message. */
  lemma ComposeMessageShape(path: string, name: Option<string>, code: Option<int>, strerror: Option<string>)
    ensures var m := ComposeMessage(path, name, code, strerror);
      && StartsWith(m, MessageHead(path))
      && (name.Some? ==> Contains(m, ", value '" + name.value + "'"))
      && (EndsWith(m, ")") <==> code.Some? || Truthy(strerror))
  {
    ComposeMessageIsPlain(path, name, code, strerror);
    var head := MessageHead(path);
    var tail := CodePart(code, strerror);
    var m := head + ValuePart(name) + tail;
    assert m[..|head|] == head;
    if name.Some? {
      ContainsInfix(head, ", value '" + name.value + "'", tail);
    }
    if tail == "" {
      assert m == head + ValuePart(name);
      assert m[|m| - 1] == '\'';
    } else {
      assert m[|m| - 1] == tail[|tail| - 1];
    }
  }

  /** What `_handle_winreg_error` was given: a raw `OSError` from winreg, or a
      registry error already translated further down (which reaches it only when
      it is itself an `OSError`, i.e. a permission error). */
  datatype Caught = OsErr(os: OsError) | Domain(error: RegistryError)

  /** `_handle_winreg_error`: the exception it raises (it never returns normally). */
  function HandleWinregError(e: Caught, path: string, name: Option<string>): (r: RegistryError)
    ensures e.Domain? ==> r == e.error
    ensures e.OsErr? ==>
      && r.kind == KindForCode(e.os.winerror)
      && r.winerror == e.os.winerror
      && r.strerror == e.os.strerror
      && r.args == [ComposeMessage(path, name, e.os.winerror, e.os.strerror)]
  {
    match e
      case Domain(re) =>
        var errCode := re.winerror;
        if re.winerror.None? && errCode.Some? then re.(winerror := errCode) else re
      case OsErr(os) =>
        RegistryError(KindForCode(os.winerror), [ComposeMessage(path, name, os.winerror, os.strerror)],
                      os.winerror, os.strerror)
  }

  /** A translated error prints as the composed message, which starts with the
      operation head. */
  lemma TranslatedMessage(os: OsError, path: string, name: Option<string>)
    ensures var s := Str(HandleWinregError(OsErr(os), path, name));
      && StartsWith(s, MessageHead(path))
      && s == MessageHead(path) + ValuePart(name) + CodePart(os.winerror, os.strerror)
  {
    ComposeMessageShape(path, name, os.winerror, os.strerror);
    ComposeMessageIsPlain(path, name, os.winerror, os.strerror);
  }

  /** A handler's `except OSError` clause around code that already raised a
      registry error: only a permission error is caught, and the handler then
      re-raises it untouched, so the error passes through unchanged either way. */
  function CatchOuter(err: RegistryError, path: string, name: Option<string>): (r: RegistryError)
    ensures r == err
  {
    if IsOsErrorKind(err.kind) then HandleWinregError(Domain(err), path, name) else err
  }

  /** A registry error re-raised through any number of handlers keeps its class,
      message and codes. */
  lemma {:induction false} RehandleIdempotent(err: RegistryError, paths: seq<string>)
    ensures RehandleAll(err, paths) == err
    decreases |paths|
  {
    if |paths| > 0 {
      RehandleIdempotent(err, paths[1..]);
    }
  }

  function RehandleAll(err: RegistryError, paths: seq<string>): RegistryError
    decreases |paths|
  {
    if |paths| == 0 then err else HandleWinregError(Domain(RehandleAll(err, paths[1..])), paths[0], None)
  }
}
