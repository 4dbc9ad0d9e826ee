/** Key-file loading: `load_key_files` (command line) and `load_private_keys` (GUI), which
    are the same code. Each `<prefix>*.keys` file in the keys directory holds `Field: value`
    lines; the private key and the hashed advertisement key of a device go into two
    dictionaries keyed by the hashed advertisement key. */
module KeyStore {
  import opened Wrappers
  import opened Text
  import opened Bytes

  const PrivateKeyField: string := "Private key"
  const HashedAdvKeyField: string := "Hashed adv key"
  const FieldSeparator: string := ": "
  const KeyFileExtension: string := ".keys"

  /** A file of the keys directory: its base name and the lines that iterating over it yields
      (each still ending in its newline). */
  datatype KeyFile = KeyFile(basename: string, lines: seq<string>)

  /** The file names the glob `<prefix>*.keys` selects: the prefix, any text, the extension;
      a pattern that starts with `*` does not select a hidden file. */
  predicate Matches(prefix: string, basename: string)
  {
    && |basename| >= |prefix| + |KeyFileExtension|
    && StartsWith(basename, prefix)
    && EndsWith(basename, KeyFileExtension)
    && (prefix == "" ==> basename[0] != '.')
  }

  /** `os.path.basename(keyfile)[len(prefix):-5]`. */
  function DeviceName(prefix: string, basename: string): string
  {
    PySlice(basename, |prefix|, -5)
  }

  /** For a selected file the device name is exactly what lies between the prefix and `.keys`. */
  lemma DeviceNameOfMatch(prefix: string, basename: string)
    requires Matches(prefix, basename)
    ensures prefix + DeviceName(prefix, basename) + KeyFileExtension == basename
  {
    var n := |basename|;
    assert DeviceName(prefix, basename) == basename[|prefix|..n - 5];
    assert basename == basename[..|prefix|] + basename[|prefix|..n - 5] + basename[n - 5..];
  }

  /** `line.rstrip("\n").split(": ")`. */
  function Parts(line: string): (r: seq<string>)
    ensures |r| >= 1
  {
    Split(RStripNewlines(line), FieldSeparator)
  }

  /** The split form of every line of a file. */
  function LineParts(lines: seq<string>): (r: seq<seq<string>>)
    ensures |r| == |lines|
  {
    seq(|lines|, i requires 0 <= i < |lines| => Parts(lines[i]))
  }

  /** A split line naming one of the two fields but without a `": "`: its `key[1]` raises IndexError. */
  predicate Malformed(key: seq<string>)
  {
    |key| >= 1 && (key[0] == PrivateKeyField || key[0] == HashedAdvKeyField) && |key| < 2
  }

  /** The split line names `field`. */
  predicate Names(key: seq<string>, field: string)
  {
    |key| >= 1 && key[0] == field
  }

  /** The values of `priv` and `hashed_adv` after some lines; "" stands for not seen. */
  datatype Fields = Fields(priv: string, hashedAdv: string)

  function ValueOf(f: Fields, field: string): string
  {
    if field == PrivateKeyField then f.priv else f.hashedAdv
  }

  /** One pass of the inner loop over a split line; None where `key[1]` raises. */
  function ScanLine(acc: Fields, key: seq<string>): Option<Fields>
    requires |key| >= 1
  {
    if key[0] == PrivateKeyField then
      if |key| < 2 then None else Some(acc.(priv := key[1]))
    else if key[0] == HashedAdvKeyField then
      if |key| < 2 then None else Some(acc.(hashedAdv := key[1]))
    else Some(acc)
  }

  predicate AllSplit(keys: seq<seq<string>>)
  {
    forall i :: 0 <= i < |keys| ==> |keys[i]| >= 1
  }

  /** The inner loop over a file's split lines: the final fields, or the index of the line that raised. */
  function ScanLines(keys: seq<seq<string>>): Result<Fields, nat>
    requires AllSplit(keys)
  {
    if keys == [] then Ok(Fields("", ""))
    else
      match ScanLines(keys[..|keys| - 1])
      case Err(i) => Err(i)
      case Ok(acc) =>
        match ScanLine(acc, keys[|keys| - 1])
        case None => Err(|keys| - 1)
        case Some(next) => Ok(next)
  }

  lemma {:induction false} ScanErrSticks(keys: seq<seq<string>>, i: nat)
    requires AllSplit(keys)
    requires i <= |keys| && ScanLines(keys[..i]).Err?
    ensures ScanLines(keys) == ScanLines(keys[..i])
  {
    if i < |keys| {
      var init := keys[..|keys| - 1];
      assert init[..i] == keys[..i];
      ScanErrSticks(init, i);
    } else {
      assert keys[..i] == keys;
    }
  }

  /** Scanning fails exactly at the first malformed field line. */
  lemma {:induction false} ScanFailsAtFirstMalformed(keys: seq<seq<string>>)
    requires AllSplit(keys)
    ensures ScanLines(keys).Err? ==>
      var i := ScanLines(keys).error;
      i < |keys| && Malformed(keys[i]) && forall j :: 0 <= j < i ==> !Malformed(keys[j])
    ensures ScanLines(keys).Ok? ==> forall j :: 0 <= j < |keys| ==> !Malformed(keys[j])
  {
    if keys != [] {
      var init := keys[..|keys| - 1];
      ScanFailsAtFirstMalformed(init);
      assert forall j :: 0 <= j < |init| ==> init[j] == keys[j];
    }
  }

  /** A field no line names keeps its initial "". */
  lemma {:induction false} UnnamedFieldEmpty(keys: seq<seq<string>>, field: string)
    requires AllSplit(keys)
    requires field == PrivateKeyField || field == HashedAdvKeyField
    requires ScanLines(keys).Ok?
    requires forall i :: 0 <= i < |keys| ==> !Names(keys[i], field)
    ensures ValueOf(ScanLines(keys).value, field) == ""
  {
    if keys != [] {
      var init := keys[..|keys| - 1];
      assert forall j :: 0 <= j < |init| ==> init[j] == keys[j];
      UnnamedFieldEmpty(init, field);
    }
  }

  /** A later line for a field overwrites an earlier one: after scanning, a field holds the
      value of the last line naming it. */
  lemma {:induction false} LastValueWins(keys: seq<seq<string>>, field: string, i: nat)
    requires AllSplit(keys)
    requires field == PrivateKeyField || field == HashedAdvKeyField
    requires ScanLines(keys).Ok?
    requires i < |keys| && Names(keys[i], field)
    requires forall j :: i < j < |keys| ==> !Names(keys[j], field)
    ensures |keys[i]| >= 2 && ValueOf(ScanLines(keys).value, field) == keys[i][1]
  {
    var n := |keys|;
    var init := keys[..n - 1];
    if i < n - 1 {
      assert forall j :: 0 <= j < n - 1 ==> init[j] == keys[j];
      LastValueWins(init, field, i);
    }
  }

  /** Scanning one more line. */
  lemma ScanLinesSnoc(keys: seq<seq<string>>, i: nat)
    requires AllSplit(keys) && i < |keys|
    ensures ScanLines(keys[..i + 1]) ==
      match ScanLines(keys[..i])
      case Err(j) => Err(j)
      case Ok(acc) =>
        match ScanLine(acc, keys[i])
        case None => Err(i)
        case Some(next) => Ok(next)
  {
    assert keys[..i + 1][..i] == keys[..i];
  }

  /** The inner `for line in f` loop. */
  method ScanKeyFile(lines: seq<string>) returns (r: Result<Fields, nat>)
    ensures r == ScanLines(LineParts(lines))
  {
    ghost var keys := LineParts(lines);
    var priv, hashedAdv := "", "";
    var i := 0;
    while i < |lines|
      invariant 0 <= i <= |lines|
      invariant ScanLines(keys[..i]) == Ok(Fields(priv, hashedAdv))
    {
      var key := Parts(lines[i]);
      assert key == keys[i];
      ScanLinesSnoc(keys, i);
      if key[0] == PrivateKeyField {
        if |key| < 2 {
          ScanErrSticks(keys, i + 1);
          return Err(i);
        }
        priv := key[1];
      } else if key[0] == HashedAdvKeyField {
        if |key| < 2 {
          ScanErrSticks(keys, i + 1);
          return Err(i);
        }
        hashedAdv := key[1];
      }
      i := i + 1;
    }
    assert keys[..i] == keys;
    return Ok(Fields(priv, hashedAdv));
  }

  /** The two dictionaries, plus their common key order (Python dictionaries keep the order in
      which keys were first inserted; `names.keys()` and `names.values()` follow it). */
  datatype KeyTables = KeyTables(privkeys: map<string, string>, names: map<string, string>, order: seq<string>)

  ghost predicate Distinct(s: seq<string>)
  {
    forall i, j :: 0 <= i < j < |s| ==> s[i] != s[j]
  }

  /** `privkeys` and `names` have the same keys, listed once each by `order`. */
  ghost predicate Valid(t: KeyTables)
  {
    && t.privkeys.Keys == t.names.Keys
    && (forall k :: k in t.order <==> k in t.privkeys)
    && Distinct(t.order)
  }

  /** A device record read from one file. */
  datatype Entry = Entry(hashedAdv: string, priv: string, name: string)

  /** `privkeys[hashed_adv] = priv; names[hashed_adv] = name`. */
  function Insert(t: KeyTables, e: Entry): KeyTables
  {
    KeyTables(t.privkeys[e.hashedAdv := e.priv], t.names[e.hashedAdv := e.name],
      if e.hashedAdv in t.privkeys then t.order else t.order + [e.hashedAdv])
  }

  datatype LoadError = MissingValue(file: string, line: nat)

  /** One selected file: a record when both fields are non-empty, None when the file is skipped
      with "Couldn't find key pair", an error when a line raised. */
  function ReadKeyFile(prefix: string, f: KeyFile): Result<Option<Entry>, LoadError>
  {
    match ScanLines(LineParts(f.lines))
    case Err(i) => Err(MissingValue(f.basename, i))
    case Ok(fields) =>
      if fields.priv != "" && fields.hashedAdv != "" then
        Ok(Some(Entry(fields.hashedAdv, fields.priv, DeviceName(prefix, f.basename))))
      else Ok(None)
  }

  datatype Loaded = Loaded(keys: KeyTables, warnings: seq<string>)

  function LoadOne(prefix: string, l: Loaded, f: KeyFile): Result<Loaded, LoadError>
  {
    if !Matches(prefix, f.basename) then Ok(l)
    else
      match ReadKeyFile(prefix, f)
      case Err(e) => Err(e)
      case Ok(None) => Ok(l.(warnings := l.warnings + [f.basename]))
      case Ok(Some(e)) => Ok(l.(keys := Insert(l.keys, e)))
  }

  const NoKeys: Loaded := Loaded(KeyTables(map[], map[], []), [])

  /** The outer loop over the directory, in enumeration order. */
  function LoadSpec(prefix: string, files: seq<KeyFile>): Result<Loaded, LoadError>
  {
    if files == [] then Ok(NoKeys)
    else
      match LoadSpec(prefix, files[..|files| - 1])
      case Err(e) => Err(e)
      case Ok(l) => LoadOne(prefix, l, files[|files| - 1])
  }

  lemma {:induction false} LoadErrSticks(prefix: string, files: seq<KeyFile>, i: nat)
    requires i <= |files| && LoadSpec(prefix, files[..i]).Err?
    ensures LoadSpec(prefix, files) == LoadSpec(prefix, files[..i])
  {
    if i < |files| {
      var init := files[..|files| - 1];
      assert init[..i] == files[..i];
      LoadErrSticks(prefix, init, i);
    } else {
      assert files[..i] == files;
    }
  }

  /** `load_key_files(prefix)` over the directory listing `files`. */
  method LoadKeyFiles(prefix: string, files: seq<KeyFile>) returns (r: Result<Loaded, LoadError>)
    ensures r == LoadSpec(prefix, files)
  {
    var privkeys: map<string, string>, names: map<string, string> := map[], map[];
    var order: seq<string>, warnings: seq<string> := [], [];
    var i := 0;
    while i < |files|
      invariant 0 <= i <= |files|
      invariant LoadSpec(prefix, files[..i]) == Ok(Loaded(KeyTables(privkeys, names, order), warnings))
    {
      assert files[..i + 1][..i] == files[..i];
      var f := files[i];
      if Matches(prefix, f.basename) {
        var name := DeviceName(prefix, f.basename);
        var scanned := ScanKeyFile(f.lines);
        if scanned.Err? {
          LoadErrSticks(prefix, files, i + 1);
          return Err(MissingValue(f.basename, scanned.error));
        }
        var priv, hashedAdv := scanned.value.priv, scanned.value.hashedAdv;
        if priv != "" && hashedAdv != "" {
          if hashedAdv !in privkeys {
            order := order + [hashedAdv];
          }
          privkeys := privkeys[hashedAdv := priv];
          names := names[hashedAdv := name];
        } else {
          warnings := warnings + [f.basename];
        }
      }
      i := i + 1;
    }
    assert files[..i] == files;
    return Ok(Loaded(KeyTables(privkeys, names, order), warnings));
  }

  /** What a file contributes to the tables: its record, when it is selected and has both fields. */
  function Contribution(prefix: string, f: KeyFile): Option<Entry>
  {
    if Matches(prefix, f.basename) then
      match ReadKeyFile(prefix, f)
      case Ok(Some(e)) => Some(e)
      case _ => None
    else None
  }

  /** File `i` is selected and yields record `e`. */
  predicate AcceptedAt(prefix: string, files: seq<KeyFile>, i: int, e: Entry)
  {
    0 <= i < |files| && Contribution(prefix, files[i]) == Some(e)
  }

  /** File `i` is selected and skipped with a warning. */
  predicate SkippedAt(prefix: string, files: seq<KeyFile>, i: int)
  {
    0 <= i < |files| && Matches(prefix, files[i].basename) && ReadKeyFile(prefix, files[i]) == Ok(None)
  }

  /** A successful step changes the tables by the file's contribution only. */
  lemma LoadOneKeys(prefix: string, l: Loaded, f: KeyFile)
    requires LoadOne(prefix, l, f).Ok?
    ensures LoadOne(prefix, l, f).value.keys ==
      match Contribution(prefix, f)
      case None => l.keys
      case Some(e) => Insert(l.keys, e)
  {
  }

  /** The files before the last one accept the same records as in the whole listing. */
  lemma AcceptedInInit(prefix: string, files: seq<KeyFile>, i: int, e: Entry)
    requires files != []
    ensures AcceptedAt(prefix, files[..|files| - 1], i, e) <==> i < |files| - 1 && AcceptedAt(prefix, files, i, e)
  {
    if 0 <= i < |files| - 1 {
      assert files[..|files| - 1][i] == files[i];
    }
  }

  /** `privkeys` and `names` always end up with the same keys. */
  lemma {:induction false} LoadedTablesValid(prefix: string, files: seq<KeyFile>)
    requires LoadSpec(prefix, files).Ok?
    ensures Valid(LoadSpec(prefix, files).value.keys)
  {
    if files != [] {
      LoadedTablesValid(prefix, files[..|files| - 1]);
    }
  }

  /** Loading fails exactly when a selected file has a malformed field line. */
  lemma {:induction false} LoadFailsIffMalformed(prefix: string, files: seq<KeyFile>)
    ensures LoadSpec(prefix, files).Err? <==>
      exists i :: 0 <= i < |files| && Matches(prefix, files[i].basename) && ScanLines(LineParts(files[i].lines)).Err?
  {
    if files != [] {
      var n := |files|;
      var init := files[..n - 1];
      LoadFailsIffMalformed(prefix, init);
      assert forall i :: 0 <= i < n - 1 ==> init[i] == files[i];
      if LoadSpec(prefix, init).Err? {
        var i :| 0 <= i < |init| && Matches(prefix, init[i].basename) && ScanLines(LineParts(init[i].lines)).Err?;
        assert files[i] == init[i];
      }
    }
  }

  /** A key is loaded exactly when some selected file yields a record for it. */
  lemma {:induction false} LoadedKeysAccepted(prefix: string, files: seq<KeyFile>)
    requires LoadSpec(prefix, files).Ok?
    ensures var l := LoadSpec(prefix, files).value;
      forall k :: k in l.keys.privkeys <==> exists i, e :: AcceptedAt(prefix, files, i, e) && e.hashedAdv == k
  {
    if files != [] {
      var n := |files|;
      var init := files[..n - 1];
      LoadedKeysAccepted(prefix, init);
      var l0 := LoadSpec(prefix, init).value;
      var l := LoadSpec(prefix, files).value;
      var f := files[n - 1];
      assert l == LoadOne(prefix, l0, f).value;
      LoadOneKeys(prefix, l0, f);
      forall k | k in l.keys.privkeys
        ensures exists i, e :: AcceptedAt(prefix, files, i, e) && e.hashedAdv == k
      {
        if k in l0.keys.privkeys {
          var i, e :| AcceptedAt(prefix, init, i, e) && e.hashedAdv == k;
          AcceptedInInit(prefix, files, i, e);
        } else {
          assert AcceptedAt(prefix, files, n - 1, Contribution(prefix, f).value);
        }
      }
      forall k | exists i, e :: AcceptedAt(prefix, files, i, e) && e.hashedAdv == k
        ensures k in l.keys.privkeys
      {
        var i, e :| AcceptedAt(prefix, files, i, e) && e.hashedAdv == k;
        AcceptedInInit(prefix, files, i, e);
      }
    }
  }

  /** The warnings name exactly the selected files that were skipped, in order. */
  lemma {:induction false} WarningsAreSkippedFiles(prefix: string, files: seq<KeyFile>)
    requires LoadSpec(prefix, files).Ok?
    ensures var l := LoadSpec(prefix, files).value;
      forall w :: w in l.warnings <==> exists i :: SkippedAt(prefix, files, i) && files[i].basename == w
  {
    if files != [] {
      var n := |files|;
      var init := files[..n - 1];
      WarningsAreSkippedFiles(prefix, init);
      var l0 := LoadSpec(prefix, init).value;
      var l := LoadSpec(prefix, files).value;
      assert forall i :: 0 <= i < n - 1 ==> init[i] == files[i];
      assert forall i :: SkippedAt(prefix, init, i) <==> (i < n - 1 && SkippedAt(prefix, files, i));
      assert l.warnings == l0.warnings || (SkippedAt(prefix, files, n - 1) && l.warnings == l0.warnings + [files[n - 1].basename]);
    }
  }

  /** The record kept for a key is the one from the last selected file that yields that key. */
  lemma {:induction false} LastFileWins(prefix: string, files: seq<KeyFile>, i: nat, e: Entry)
    requires LoadSpec(prefix, files).Ok?
    requires AcceptedAt(prefix, files, i, e)
    requires forall j, e' :: i < j && AcceptedAt(prefix, files, j, e') ==> e'.hashedAdv != e.hashedAdv
    ensures var t := LoadSpec(prefix, files).value.keys;
      && e.hashedAdv in t.privkeys && t.privkeys[e.hashedAdv] == e.priv
      && e.hashedAdv in t.names && t.names[e.hashedAdv] == e.name
  {
    var n := |files|;
    var init := files[..n - 1];
    var f := files[n - 1];
    var l0 := LoadSpec(prefix, init).value;
    assert LoadSpec(prefix, files) == LoadOne(prefix, l0, f);
    LoadOneKeys(prefix, l0, f);
    if i < n - 1 {
      forall j, e' | i < j && AcceptedAt(prefix, init, j, e') ensures e'.hashedAdv != e.hashedAdv {
        AcceptedInInit(prefix, files, j, e');
      }
      AcceptedInInit(prefix, files, i, e);
      LastFileWins(prefix, init, i, e);
      if Contribution(prefix, f).Some? {
        assert AcceptedAt(prefix, files, n - 1, Contribution(prefix, f).value);
      }
    }
  }

  /** Every loaded record comes from a selected file with that key. */
  lemma {:induction false} LoadedFromSomeFile(prefix: string, files: seq<KeyFile>)
    requires LoadSpec(prefix, files).Ok?
    ensures var t := LoadSpec(prefix, files).value.keys;
      forall k :: k in t.names ==> k in t.privkeys && exists i :: AcceptedAt(prefix, files, i, Entry(k, t.privkeys[k], t.names[k]))
  {
    if files != [] {
      var n := |files|;
      var init := files[..n - 1];
      var f := files[n - 1];
      LoadedFromSomeFile(prefix, init);
      LoadedTablesValid(prefix, init);
      var l0 := LoadSpec(prefix, init).value;
      var t := LoadSpec(prefix, files).value.keys;
      assert LoadSpec(prefix, files) == LoadOne(prefix, l0, f);
      LoadOneKeys(prefix, l0, f);
      forall k | k in t.names
        ensures k in t.privkeys && exists i :: AcceptedAt(prefix, files, i, Entry(k, t.privkeys[k], t.names[k]))
      {
        if Contribution(prefix, f).Some? && Contribution(prefix, f).value.hashedAdv == k {
          assert AcceptedAt(prefix, files, n - 1, Contribution(prefix, f).value);
        } else {
          var i :| AcceptedAt(prefix, init, i, Entry(k, l0.keys.privkeys[k], l0.keys.names[k]));
          AcceptedInInit(prefix, files, i, Entry(k, l0.keys.privkeys[k], l0.keys.names[k]));
        }
      }
    }
  }

  /** A contributed record is named after the file it comes from. */
  lemma ContributionNamed(prefix: string, f: KeyFile, e: Entry)
    requires Contribution(prefix, f) == Some(e)
    ensures prefix + e.name + KeyFileExtension == f.basename
  {
    DeviceNameOfMatch(prefix, f.basename);
  }

  /** Base names in a directory are distinct, so distinct keys carry distinct device names. */
  lemma NamesInjective(prefix: string, files: seq<KeyFile>)
    requires LoadSpec(prefix, files).Ok?
    requires forall i, j :: 0 <= i < j < |files| ==> files[i].basename != files[j].basename
    ensures var t := LoadSpec(prefix, files).value.keys;
      forall k1, k2 :: k1 in t.names && k2 in t.names && k1 != k2 ==> t.names[k1] != t.names[k2]
  {
    var t := LoadSpec(prefix, files).value.keys;
    LoadedFromSomeFile(prefix, files);
    forall k1, k2 | k1 in t.names && k2 in t.names && k1 != k2
      ensures t.names[k1] != t.names[k2]
    {
      var e1 := Entry(k1, t.privkeys[k1], t.names[k1]);
      var e2 := Entry(k2, t.privkeys[k2], t.names[k2]);
      var i1 :| AcceptedAt(prefix, files, i1, e1);
      var i2 :| AcceptedAt(prefix, files, i2, e2);
      assert i1 != i2;
      ContributionNamed(prefix, files[i1], e1);
      ContributionNamed(prefix, files[i2], e2);
      assert files[i1].basename != files[i2].basename;
    }
  }
}
