/**
 * API-key configuration: the format check, the order in which the key's
 * sources are consulted, and the checks made before the key file is
 * written. The environment variable and the key file are passed in as
 * values; reading and writing them is left to the caller.
 */
module Config {
  import opened Lists
  import opened Text

  /** The Python values these functions are called with: `None`, a string, or anything else. */
  datatype PyValue = PyNone | PyStr(s: string) | PyOther(truthy: bool)

  /** Python truthiness: `None` and the empty string are false. */
  predicate Truthy(v: PyValue) {
    match v
    case PyNone => false
    case PyStr(s) => s != ""
    case PyOther(t) => t
  }

  /** The prefix every key has. */
  const KeyPrefix: string := "sk-"

  /** The shortest key accepted. */
  const MinKeyLength: nat := 20

  // ---------------------------------------------------------------------
  // validate_api_key_format.

  /**
   * `validate_api_key_format`: false for a falsy or non-string value, for a
   * string not starting with `sk-`, and for one shorter than 20 characters.
   */
  function ValidateApiKeyFormat(key: PyValue): (ok: bool)
    ensures ok <==> key.PyStr? && |key.s| >= MinKeyLength && key.s[..3] == KeyPrefix
  {
    if !Truthy(key) || !key.PyStr? then false
    else if !StartsWith(key.s, KeyPrefix) then false
    else if |key.s| < MinKeyLength then false
    else true
  }

  /** `None`, the empty string and every non-string are rejected. */
  lemma RejectsFalsyAndNonStrings(key: PyValue)
    requires !Truthy(key) || !key.PyStr?
    ensures !ValidateApiKeyFormat(key)
  {
  }

  /** A key of the right length and prefix is accepted, whatever follows the prefix. */
  lemma AcceptsPrefixedKeys(rest: string)
    requires |rest| >= MinKeyLength - |KeyPrefix|
    ensures ValidateApiKeyFormat(PyStr(KeyPrefix + rest))
  {
    assert (KeyPrefix + rest)[..3] == KeyPrefix;
  }

  /** Replacing the prefix or shortening the key below 20 characters makes it invalid. */
  lemma ValidationBoundaries()
    ensures !ValidateApiKeyFormat(PyStr("pk-0123456789abcdefghij"))
    ensures !ValidateApiKeyFormat(PyStr("sk-0123456789abcdef"))
    ensures ValidateApiKeyFormat(PyStr("sk-0123456789abcdefg"))
  {
    assert "pk-0123456789abcdefghij"[..3] != KeyPrefix by {
      assert "pk-0123456789abcdefghij"[0] == 'p';
    }
    AcceptsPrefixedKeys("0123456789abcdefg");
    assert KeyPrefix + "0123456789abcdefg" == "sk-0123456789abcdefg";
  }

  // ---------------------------------------------------------------------
  // get_api_key.

  /** The key file as `get_api_key` finds it: missing, raising when read, or holding text. */
  datatype KeyFile = Missing | Unreadable | Holds(text: string)

  /** The key the file supplies: its content stripped, or `None` when it has none. */
  function FileKey(file: KeyFile): (r: PyValue)
    ensures r.PyNone? || (r.PyStr? && r.s != "" && Strip(r.s) == r.s)
  {
    match file
    case Holds(text) =>
      StripIdempotent(text);
      if Strip(text) != "" then PyStr(Strip(text)) else PyNone
    case _ => PyNone
  }

  /**
   * `get_api_key`: a truthy argument as given, else a non-empty environment
   * value, else the file's stripped content if non-empty, else `None`.
   */
  function GetApiKey(arg: PyValue, env: Option<string>, file: KeyFile): (r: PyValue)
    ensures r.PyNone? || Truthy(r)
  {
    if Truthy(arg) then arg
    else if env.Some? && env.value != "" then PyStr(env.value)
    else FileKey(file)
  }

  /** The first truthy value of a list, `None` when there is none. */
  function FirstTruthy(vs: seq<PyValue>): PyValue {
    if vs == [] then PyNone
    else if Truthy(vs[0]) then vs[0]
    else FirstTruthy(vs[1..])
  }

  /** The sources in order of precedence: the argument, the environment, the file. */
  function Sources(arg: PyValue, env: Option<string>, file: KeyFile): seq<PyValue> {
    [arg, if env.Some? then PyStr(env.value) else PyNone, FileKey(file)]
  }

  /** `get_api_key` answers with the first source that supplies a key. */
  lemma GetApiKeyFirstSource(arg: PyValue, env: Option<string>, file: KeyFile)
    ensures GetApiKey(arg, env, file) == FirstTruthy(Sources(arg, env, file))
  {
    var vs := Sources(arg, env, file);
    assert vs[1..] == [vs[1], FileKey(file)];
    assert vs[1..][1..] == [FileKey(file)];
    assert FirstTruthy([FileKey(file)]) == FileKey(file) by {
      assert [FileKey(file)][1..] == [];
    }
  }

  /**
   * Nothing is returned only when no source supplies a key, and a key from the
   * file is never returned while the argument or environment supplies one.
   */
  lemma GetApiKeyPrecedence(arg: PyValue, env: Option<string>, file: KeyFile)
    ensures GetApiKey(arg, env, file).PyNone? <==>
      !Truthy(arg) && (env.None? || env.value == "") && FileKey(file).PyNone?
    ensures Truthy(arg) ==> GetApiKey(arg, env, file) == arg
    ensures !Truthy(arg) && env.Some? && env.value != "" ==> GetApiKey(arg, env, file) == PyStr(env.value)
  {
  }

  // ---------------------------------------------------------------------
  // setup_api_key_file.

  /** How `setup_api_key_file` ends: raising one of two errors, or returning a flag. */
  datatype SetupOutcome = RaisedValueError | RaisedFileExistsError | Returned(written: bool)

  /** The outcome and the key file afterwards. */
  datatype Setup = Setup(outcome: SetupOutcome, file: KeyFile)

  /**
   * `setup_api_key_file`: an invalid key raises `ValueError` and an existing
   * file without `overwrite` raises `FileExistsError`, both before the file is
   * touched; otherwise the key is written and `True` returned, or the write
   * fails and `False` is returned.
   */
  function SetupApiKeyFile(key: PyValue, overwrite: bool, file: KeyFile, writeSucceeds: bool): (r: Setup)
    ensures !ValidateApiKeyFormat(key) ==> r == Setup(RaisedValueError, file)
    ensures ValidateApiKeyFormat(key) && !file.Missing? && !overwrite ==> r == Setup(RaisedFileExistsError, file)
    ensures r.outcome == Returned(true) <==>
      ValidateApiKeyFormat(key) && (file.Missing? || overwrite) && writeSucceeds
    ensures r.outcome == Returned(true) ==> r.file == Holds(key.s)
    ensures r.file != file ==> r.outcome == Returned(true)
  {
    if !ValidateApiKeyFormat(key) then Setup(RaisedValueError, file)
    else if !file.Missing? && !overwrite then Setup(RaisedFileExistsError, file)
    else if writeSucceeds then Setup(Returned(true), Holds(key.s))
    else Setup(Returned(false), file)
  }

  /**
   * A key written by `setup_api_key_file` is what `get_api_key` then reads
   * when neither the argument nor the environment supplies one, stripped of
   * trailing whitespace; a key without it is read back unchanged and passes
   * the format check again.
   */
  lemma SetupThenGet(key: PyValue, overwrite: bool, file: KeyFile, env: Option<string>)
    requires env.None? || env.value == ""
    requires SetupApiKeyFile(key, overwrite, file, true).outcome == Returned(true)
    ensures GetApiKey(PyNone, env, SetupApiKeyFile(key, overwrite, file, true).file) == PyStr(Strip(key.s))
    ensures key.s != [] && !IsSpace(Last(key.s)) ==>
      GetApiKey(PyNone, env, SetupApiKeyFile(key, overwrite, file, true).file) == key
      && ValidateApiKeyFormat(GetApiKey(PyNone, env, SetupApiKeyFile(key, overwrite, file, true).file))
  {
    var s := key.s;
    assert s[..3] == KeyPrefix;
    assert s[0] == 's';
    assert !IsSpace(s[0]);
    LeadingSpacesNone(s);
    TrailingSpacesShape(s);
    assert s[0..] == s;
    if s != [] && !IsSpace(Last(s)) {
      StripUnchanged(s);
    }
  }

  /** A key of 17 spaces after the prefix passes the check but is read back as `sk-`, which fails it. */
  lemma PaddedKeyReadsBackInvalid()
    ensures ValidateApiKeyFormat(PyStr("sk-                 "))
    ensures FileKey(Holds("sk-                 ")) == PyStr("sk-")
    ensures !ValidateApiKeyFormat(PyStr("sk-"))
  {
    var s := "sk-                 ";
    assert s[..3] == KeyPrefix;
    assert s == "sk-" + s[3..];
    assert AllSpace(s[3..]);
    StripPaddedKey("sk-", s[3..]);
  }

  /** Stripping a word that starts and ends with non-space, followed by spaces, gives the word. */
  lemma StripPaddedKey(word: string, pad: string)
    requires |word| > 0 && !IsSpace(word[0]) && !IsSpace(Last(word))
    requires AllSpace(pad)
    ensures Strip(word + pad) == word
  {
    var s := word + pad;
    assert s[0] == word[0];
    LeadingSpacesNone(s);
    StripShape(s);
    var a := StripOffset(s);
    var n := |Strip(s)|;
    assert Strip(s) == s[..n];
    assert s[..|word|] == word;
  }
}
