/** The `--set-file` pipeline: option strings to ConfigMap data, to the argument string the
    job is started with, and back through the separators helm reads it by. */
module SetFile {
  import opened Wrappers
  import opened Text

  const MOUNT_PATH := "/upgrade-config-map"

  datatype Error = InvalidArgument | UnreadableFile | KeyNotPresent

  /** `key=path` with exactly one `=`. */
  predicate WellFormed(arg: string) {
    |Split(arg, '=')| == 2
  }

  function Key(arg: string): string {
    Split(arg, '=')[0]
  }

  /** The piece after the last `=`, that is, the path of a well-formed argument. */
  function FilePath(arg: string): string {
    var parts := Split(arg, '=');
    parts[|parts| - 1]
  }

  /** `files` holds the readable files and their contents. */
  predicate Usable(arg: string, files: map<string, string>) {
    WellFormed(arg) && FilePath(arg) in files
  }

  predicate AllUsable(args: seq<string>, files: map<string, string>) {
    forall i | 0 <= i < |args| :: Usable(args[i], files)
  }

  /** The ConfigMap key of argument `i`, counting from one. */
  function Slot(i: nat): string {
    Decimal(i + 1)
  }

  /** Argument `i` is the last one naming `path`. */
  ghost predicate LastNaming(args: seq<string>, path: string, i: nat) {
    && i < |args| && FilePath(args[i]) == path
    && forall k | i < k < |args| :: FilePath(args[k]) != path
  }

  /** Exactly one entry per argument, under the distinct decimals 1..n. */
  ghost predicate DataFor(data: map<string, string>, args: seq<string>, files: map<string, string>) {
    && (forall key | key in data :: exists i: nat :: i < |args| && key == Slot(i))
    && (forall i: nat | i < |args| ::
          FilePath(args[i]) in files && Slot(i) in data && data[Slot(i)] == files[FilePath(args[i])])
  }

  /** Every file named by an argument, mapped to the slot of the last argument naming it. */
  ghost predicate IndexFor(index: map<string, string>, args: seq<string>) {
    && (forall i | 0 <= i < |args| :: FilePath(args[i]) in index)
    && (forall path | path in index :: exists i: nat :: LastNaming(args, path, i) && index[path] == Slot(i))
  }

  /** The argument that makes the whole list fail. */
  ghost predicate FirstUnusable(args: seq<string>, files: map<string, string>, i: nat) {
    i < |args| && !Usable(args[i], files) && AllUsable(args[..i], files)
  }

  method ConfigMapData(args: seq<string>, files: map<string, string>)
    returns (r: Result<(map<string, string>, map<string, string>), Error>)
    ensures r.Success? <==> AllUsable(args, files)
    ensures r.Success? ==> DataFor(r.value.0, args, files) && IndexFor(r.value.1, args)
    ensures r.Failure? ==> exists i: nat :: FirstUnusable(args, files, i)
                                           && r.error == if WellFormed(args[i]) then UnreadableFile else InvalidArgument
  {
    var data: map<string, string>, index: map<string, string> := map[], map[];
    assert DataFor(data, [], files) && IndexFor(index, []) && AllUsable([], files);
    hide DataFor, IndexFor, Split, Decimal, FirstUnusable, AllUsable;
    assert args[..0] == [];
    for n := 0 to |args|
      invariant AllUsable(args[..n], files)
      invariant DataFor(data, args[..n], files) && IndexFor(index, args[..n])
    {
      var arg := args[n];
      var parts := Split(arg, '=');
      if |parts| != 2 {
        Blame(args, files, n);
        return Failure(InvalidArgument);
      }
      var path := parts[1];
      if path !in files {
        Blame(args, files, n);
        return Failure(UnreadableFile);
      }
      NextArgument(args, n, files, data, index);
      data := data[Decimal(n + 1) := files[path]];
      index := index[path := Decimal(n + 1)];
    }
    assert args[..|args|] == args;
    return Success((data, index));
  }

  lemma Blame(args: seq<string>, files: map<string, string>, n: nat)
    requires n < |args| && AllUsable(args[..n], files) && !Usable(args[n], files)
    ensures FirstUnusable(args, files, n) && !AllUsable(args, files)
  {
  }

  lemma NextArgument(args: seq<string>, n: nat, files: map<string, string>,
                     data: map<string, string>, index: map<string, string>)
    requires n < |args| && AllUsable(args[..n], files) && Usable(args[n], files)
    requires DataFor(data, args[..n], files) && IndexFor(index, args[..n])
    ensures AllUsable(args[..n + 1], files)
    ensures DataFor(data[Slot(n) := files[FilePath(args[n])]], args[..n + 1], files)
    ensures IndexFor(index[FilePath(args[n]) := Slot(n)], args[..n + 1])
  {
    hide DataFor, IndexFor;
    AddData(args[..n], args[n], files, data);
    AddIndex(args[..n], args[n], index);
    assert args[..n + 1] == args[..n] + [args[n]];
  }

  lemma SlotsDistinct(i: nat, j: nat)
    ensures Slot(i) == Slot(j) <==> i == j
  {
    if Slot(i) == Slot(j) { DecimalInjective(i + 1, j + 1); }
  }

  lemma AddData(args: seq<string>, arg: string, files: map<string, string>, data: map<string, string>)
    requires FilePath(arg) in files && DataFor(data, args, files)
    ensures DataFor(data[Slot(|args|) := files[FilePath(arg)]], args + [arg], files)
  {
    hide FilePath, Slot;
    var n, args' := |args|, args + [arg];
    var data' := data[Slot(n) := files[FilePath(arg)]];
    forall i: nat | i < |args'| ensures Slot(i) in data' && data'[Slot(i)] == files[FilePath(args'[i])] {
      SlotsDistinct(i, n);
      assert i < n ==> args'[i] == args[i];
    }
    forall key | key in data' ensures exists i: nat :: i < |args'| && key == Slot(i) {
      if key != Slot(n) {
        var i: nat :| i < |args| && key == Slot(i);
        assert i < |args'|;
      }
    }
  }

  lemma AddIndex(args: seq<string>, arg: string, index: map<string, string>)
    requires IndexFor(index, args)
    ensures IndexFor(index[FilePath(arg) := Slot(|args|)], args + [arg])
  {
    hide FilePath, Slot;
    var n, args' := |args|, args + [arg];
    var index' := index[FilePath(arg) := Slot(n)];
    forall path | path in index' ensures exists i: nat :: LastNaming(args', path, i) && index'[path] == Slot(i) {
      if path == FilePath(arg) {
        assert LastNaming(args', path, n);
      } else {
        var i: nat :| LastNaming(args, path, i) && index[path] == Slot(i);
        assert LastNaming(args', path, i);
      }
    }
  }

  function Slots(n: nat): set<string> {
    set i: nat | i < n :: Slot(i)
  }

  lemma {:induction false} SlotsCount(n: nat)
    ensures |Slots(n)| == n
  {
    if n > 0 {
      SlotsCount(n - 1);
      forall i: nat | i < n - 1 ensures Slot(i) != Slot(n - 1) { SlotsDistinct(i, n - 1); }
      hide Slot;
      assert Slots(n) == Slots(n - 1) + {Slot(n - 1)};
      assert Slot(n - 1) !in Slots(n - 1);
    }
  }

  /** The data has as many entries as there are arguments: nothing else gets in. */
  lemma DataCounts(data: map<string, string>, args: seq<string>, files: map<string, string>)
    requires DataFor(data, args, files)
    ensures |data| == |args|
  {
    hide Slot, FilePath;
    SlotsCount(|args|);
    assert data.Keys == Slots(|args|);
    assert |data| == |data.Keys|;
  }

  /** A path named twice maps to the number of the last argument naming it. */
  lemma LastIndexWins(index: map<string, string>, args: seq<string>, i: nat)
    requires IndexFor(index, args) && i < |args|
    requires forall k | i < k < |args| :: FilePath(args[k]) != FilePath(args[i])
    ensures FilePath(args[i]) in index && index[FilePath(args[i])] == Decimal(i + 1)
  {
    hide FilePath, Decimal;
    var last: nat :| LastNaming(args, FilePath(args[i]), last) && index[FilePath(args[i])] == Slot(last);
  }

  // ------------------------------------------------------ the rewritten argument string

  /** What one argument becomes: its key, now naming the mounted file. */
  function Rewritten(arg: string, index: map<string, string>): string {
    Key(arg) + "=" + (MOUNT_PATH + "/" + (if FilePath(arg) in index then index[FilePath(arg)] else ""))
  }

  predicate Mappable(args: seq<string>, index: map<string, string>) {
    forall i | 0 <= i < |args| :: WellFormed(args[i]) && FilePath(args[i]) in index
  }

  function AllRewritten(args: seq<string>, index: map<string, string>): seq<string> {
    seq(|args|, i requires 0 <= i < |args| => Rewritten(args[i], index))
  }

  method JobSetFileArgs(args: seq<string>, index: Option<map<string, string>>)
    returns (r: Result<Option<string>, Error>)
    ensures r.Success? <==> args == [] || (index.Some? && Mappable(args, index.value))
    ensures args == [] ==> r == Success(None)
    ensures r.Success? && args != [] ==> r.value == Some(Join(AllRewritten(args, index.value), ","))
  {
    if args == [] {
      return Success(None);
    }
    var entries: seq<string> := [];
    for n := 0 to |args|
      invariant n > 0 ==> index.Some?
      invariant |entries| == n
      invariant forall i | 0 <= i < n :: WellFormed(args[i]) && FilePath(args[i]) in index.value
                                         && entries[i] == Rewritten(args[i], index.value)
    {
      var parts := Split(args[n], '=');
      if |parts| != 2 {
        return Failure(InvalidArgument);
      }
      if index.None? || parts[1] !in index.value {
        return Failure(KeyNotPresent);
      }
      entries := entries + [parts[0] + "=" + (MOUNT_PATH + "/" + index.value[parts[1]])];
    }
    assert entries == AllRewritten(args, index.value);
    return Success(Some(Join(entries, ",")));
  }

  // ------------------------------------------------------------------ the whole pipeline

  /** One rewritten entry, read back: the argument's own key, and a mounted ConfigMap key
      holding the content of the argument's own file. */
  ghost predicate ReadsBack(entry: string, arg: string, data: map<string, string>, files: map<string, string>) {
    && FilePath(arg) in files
    && exists j :: j in data && data[j] == files[FilePath(arg)] && Split(entry, '=') == [Key(arg), MOUNT_PATH + "/" + j]
  }

  lemma RewrittenReadsBack(args: seq<string>, i: nat, files: map<string, string>,
                           data: map<string, string>, index: map<string, string>)
    requires AllUsable(args, files) && DataFor(data, args, files) && IndexFor(index, args)
    requires i < |args|
    ensures FilePath(args[i]) in index
    ensures ReadsBack(Rewritten(args[i], index), args[i], data, files)
    ensures ',' in Rewritten(args[i], index) <==> ',' in Key(args[i])
  {
    hide Split, Decimal, WellFormed, Key, FilePath;
    var arg := args[i];
    var j := index[FilePath(arg)];
    var last: nat :| LastNaming(args, FilePath(arg), last) && j == Slot(last);
    DecimalRoundTrip(last + 1);
    var mounted := MOUNT_PATH + "/" + j;
    MountedIsPlain(j);
    assert Rewritten(arg, index) == Key(arg) + ['='] + mounted;
    KeySplitsOff(arg, mounted);
    assert data[j] == files[FilePath(arg)];
  }

  lemma MountedIsPlain(j: string)
    requires forall c | c in j :: '0' <= c <= '9'
    ensures '=' !in MOUNT_PATH + "/" + j && ',' !in MOUNT_PATH + "/" + j
  {
  }

  lemma KeySplitsOff(arg: string, mounted: string)
    requires '=' !in mounted
    ensures Split(Key(arg) + ['='] + mounted, '=') == [Key(arg), mounted]
  {
    PartsHaveNoSeparator(arg, '=');
    assert Split(arg, '=')[0] in Split(arg, '=');
    hide Split;
    SplitAtSeparator(Key(arg), mounted, '=');
    SplitWhole(mounted, '=');
    assert [Key(arg)] + [mounted] == [Key(arg), mounted];
  }

  /** The plugin's own use: whenever the ConfigMap data can be built, the job argument can be
      too, with one entry per argument in order, each reading back to the argument's own
      key and file; and helm, splitting the string on commas, sees exactly these entries
      iff no key contains a comma. */
  method SetFilePipeline(args: seq<string>, files: map<string, string>)
    returns (r: Result<(map<string, string>, string), Error>)
    ensures r.Success? <==> AllUsable(args, files)
    ensures r.Success? ==> DataFor(r.value.0, args, files) && CarriesArguments(r.value.1, args, r.value.0, files)
  {
    var cm := ConfigMapData(args, files);
    if cm.Failure? {
      return Failure(cm.error);
    }
    var data, index := cm.value.0, cm.value.1;
    EntriesReadBack(args, files, data, index);
    var job := JobSetFileArgs(args, Some(index));
    var setFile := match job.value case Some(s) => s case None => "";
    assert setFile == Join(AllRewritten(args, index), ",");
    r := Success((data, setFile));
  }

  /** The joined string stands for the arguments, entry by entry. */
  ghost predicate CarriesArguments(setFile: string, args: seq<string>,
                                   data: map<string, string>, files: map<string, string>) {
    exists entries: seq<string> :: setFile == Join(entries, ",") && EntriesMatch(entries, args, data, files)
  }

  ghost predicate EntriesMatch(entries: seq<string>, args: seq<string>,
                               data: map<string, string>, files: map<string, string>) {
    && |entries| == |args|
    && (forall i | 0 <= i < |args| :: ReadsBack(entries[i], args[i], data, files))
    && (args != [] ==>
         (Split(Join(entries, ","), ',') == entries <==> forall i | 0 <= i < |args| :: ',' !in Key(args[i])))
  }

  lemma EntriesReadBack(args: seq<string>, files: map<string, string>,
                        data: map<string, string>, index: map<string, string>)
    requires AllUsable(args, files) && DataFor(data, args, files) && IndexFor(index, args)
    ensures Mappable(args, index) && EntriesMatch(AllRewritten(args, index), args, data, files)
  {
    hide Split, Rewritten, Key, FilePath, DataFor, IndexFor, ReadsBack;
    var entries := AllRewritten(args, index);
    forall i | 0 <= i < |args|
      ensures FilePath(args[i]) in index
      ensures ReadsBack(entries[i], args[i], data, files)
      ensures ',' in entries[i] <==> ',' in Key(args[i])
    {
      RewrittenReadsBack(args, i, files, data, index);
    }
    if args != [] {
      SplitJoinRoundTrip(entries, ',');
      assert [','] == ",";
      assert forall i | 0 <= i < |args| :: entries[i] in entries;
    }
  }

  // ------------------------------------------------------------- arguments in parts

  /** What the plugin sees in an argument: exactly those with one `=` are well-formed, and split
      into the key before it and the path behind it. */
  lemma ArgumentInParts(arg: string, key: string, path: string)
    ensures '=' !in key && '=' !in path && arg == key + "=" + path ==>
      WellFormed(arg) && Key(arg) == key && FilePath(arg) == path
    ensures WellFormed(arg) ==>
      arg == Key(arg) + "=" + FilePath(arg) && '=' !in Key(arg) && '=' !in FilePath(arg)
  {
    if '=' !in key && '=' !in path && arg == key + "=" + path {
      assert arg == key + ['='] + path;
      SplitAtSeparator(key, path, '=');
      SplitWhole(path, '=');
    }
    if WellFormed(arg) {
      JoinSplit(arg, '=');
      PartsHaveNoSeparator(arg, '=');
      var parts := Split(arg, '=');
      assert parts[0] in parts && parts[1] in parts;
      assert parts[1..] == [parts[1]];
      assert Join(parts, ['=']) == parts[0] + ['='] + Join(parts[1..], ['=']);
    }
  }

  /** For arguments `key=path`, the job is started with one `key=/upgrade-config-map/j` each, in
      order, and its ConfigMap holds the content of the `i`-th file under the `i`-th decimal
      and that of the argument's own file under its `j`. */
  lemma PipelineInParts(args: seq<string>, keys: seq<string>, paths: seq<string>, files: map<string, string>,
                        data: map<string, string>, setFile: string)
    returns (entries: seq<string>, slots: seq<string>)
    requires |args| == |keys| == |paths|
    requires forall i | 0 <= i < |args| :: args[i] == keys[i] + "=" + paths[i] && '=' !in keys[i] && '=' !in paths[i]
    ensures DataFor(data, args, files) ==> forall i: nat | i < |paths| ::
      paths[i] in files && Decimal(i + 1) in data && data[Decimal(i + 1)] == files[paths[i]]
    ensures CarriesArguments(setFile, args, data, files) ==>
      && setFile == Join(entries, ",") && |entries| == |slots| == |keys|
      && forall i | 0 <= i < |keys| ::
           && slots[i] in data && paths[i] in files && data[slots[i]] == files[paths[i]]
           && entries[i] == keys[i] + "=/upgrade-config-map/" + slots[i]
  {
    hide Split, Decimal, Join, WellFormed, Key, FilePath, CarriesArguments;
    forall i: nat | i < |keys|
      ensures Key(args[i]) == keys[i] && FilePath(args[i]) == paths[i]
      ensures DataFor(data, args, files) ==>
        paths[i] in files && Decimal(i + 1) in data && data[Decimal(i + 1)] == files[paths[i]]
    {
      ArgumentInParts(args[i], keys[i], paths[i]);
      assert DataFor(data, args, files) ==> Slot(i) in data;
    }
    hide DataFor;
    entries, slots := [], [];
    if CarriesArguments(setFile, args, data, files) {
      entries, slots := EntriesMounted(args, data, files, setFile);
    }
  }

  lemma EntriesMounted(args: seq<string>, data: map<string, string>, files: map<string, string>, setFile: string)
    returns (entries: seq<string>, slots: seq<string>)
    requires CarriesArguments(setFile, args, data, files)
    ensures setFile == Join(entries, ",") && |entries| == |slots| == |args|
    ensures forall i | 0 <= i < |args| ::
      && slots[i] in data && FilePath(args[i]) in files && data[slots[i]] == files[FilePath(args[i])]
      && entries[i] == Key(args[i]) + "=/upgrade-config-map/" + slots[i]
  {
    hide Split, Join, Key, FilePath, ReadsBack;
    entries :| setFile == Join(entries, ",") && EntriesMatch(entries, args, data, files);
    slots := [];
    for n := 0 to |args|
      invariant |slots| == n
      invariant forall i | 0 <= i < n ::
        && slots[i] in data && FilePath(args[i]) in files && data[slots[i]] == files[FilePath(args[i])]
        && entries[i] == Key(args[i]) + "=/upgrade-config-map/" + slots[i]
    {
      var j := MountedEntry(entries[n], args[n], data, files);
      slots := slots + [j];
    }
  }

  lemma MountedEntry(entry: string, arg: string, data: map<string, string>, files: map<string, string>)
    returns (j: string)
    requires ReadsBack(entry, arg, data, files)
    ensures j in data && FilePath(arg) in files && data[j] == files[FilePath(arg)]
    ensures entry == Key(arg) + "=/upgrade-config-map/" + j
  {
    hide Split, Key, FilePath;
    j :| j in data && data[j] == files[FilePath(arg)] && Split(entry, '=') == [Key(arg), MOUNT_PATH + "/" + j];
    TwoParts(entry, Key(arg), MOUNT_PATH + "/" + j);
    assert "=" + (MOUNT_PATH + "/") == "=/upgrade-config-map/";
    assert Key(arg) + "=" + (MOUNT_PATH + "/" + j) == Key(arg) + ("=" + (MOUNT_PATH + "/")) + j;
  }

  lemma TwoParts(s: string, a: string, b: string)
    requires Split(s, '=') == [a, b]
    ensures s == a + "=" + b
  {
    JoinSplit(s, '=');
    assert [a, b][1..] == [b];
  }

  /** Usable is what has one `=` and names a readable file. */
  lemma UsableInParts(key: string, path: string, files: map<string, string>)
    requires '=' !in key && '=' !in path
    ensures Usable(key + "=" + path, files) <==> path in files
  {
    ArgumentInParts(key + "=" + path, key, path);
  }

  /** The option's help text also promises `key1=path1,key2=path2`; such an argument has two
      `=` and is always rejected. */
  lemma CommaListIsRejected(a: string, b: string, c: string)
    ensures !WellFormed(a + "=" + b + "=" + c)
  {
    hide Split;
    SplitCountsSeparators(a + "=" + b + "=" + c, '=');
    OccurrencesAppend(a + "=" + b + "=", c, '=');
    OccurrencesAppend(a + "=" + b, "=", '=');
    OccurrencesAppend(a + "=", b, '=');
    OccurrencesAppend(a, "=", '=');
    assert Occurrences("=", '=') == 1;
  }
}
