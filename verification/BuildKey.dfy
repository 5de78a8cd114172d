/**
  The byte stream behind the compiler build key (crates/xldr/build.rs): length-prefixed source files,
  environment variables and toolchain identities, fed one after the other into a hash. The model stops
  at the bytes that reach the hash.
 */
module BuildKey {
  import opened Wrappers
  import opened Mixing
  import opened MachineWords
  import opened Bytes

  type Text = seq<Byte>

  /** The bytes of an ASCII literal. */
  function Ascii(s: string): Text {
    seq(|s|, i requires 0 <= i < |s| => (s[i] as int) % 256)
  }

  const REQUIRED: seq<Text> := [
    Ascii("TARGET"), Ascii("HOST"), Ascii("PROFILE"), Ascii("OPT_LEVEL"), Ascii("DEBUG"),
    Ascii("RUSTC"), Ascii("CARGO")]

  const OPTIONAL: seq<Text> := [
    Ascii("CARGO_ENCODED_RUSTFLAGS"), Ascii("RUSTC_WRAPPER"), Ascii("RUSTC_WORKSPACE_WRAPPER")]

  /** A path relative to the workspace root, as the source list holds them. */
  predicate SourcePath(path: Text) {
    Ascii("Cargo.") <= path || Ascii("crates/") <= path
  }

  /** The paths the build script collects: the workspace manifest and lock file, and files of its crates. */
  lemma CollectedPaths(rest: Text)
    ensures SourcePath(Ascii("Cargo.toml")) && SourcePath(Ascii("Cargo.lock")) && SourcePath(Ascii("crates/") + rest)
  {
    assert Ascii("Cargo.toml")[..6] == Ascii("Cargo.") && Ascii("Cargo.lock")[..6] == Ascii("Cargo.");
  }

  /** The variables Cargo sets for the selected target and features. */
  predicate ConfigurationName(name: Text) {
    Ascii("CARGO_FEATURE_") <= name || Ascii("CARGO_CFG_") <= name
  }

  /** What a build feeds into its key. */
  datatype Build = Build(
    files: seq<(Text, Text)>,
    required: seq<Text>,
    optional: seq<Option<Text>>,
    configuration: seq<(Text, Text)>,
    rustcIdentity: Text,
    cargoIdentity: Text)

  // ---------- The stream ----------

  function Field(bytes: Text): Text {
    LowBytes(|bytes|, 8) + bytes
  }

  /** Absence is a byte of its own, distinct from an empty value. */
  function Tagged(value: Option<Text>): Text {
    match value
    case Some(v) => [1] + Field(v)
    case None => [0]
  }

  function Entry(name: Text, value: Option<Text>): Text {
    Field(name) + Tagged(value)
  }

  /** An entry is the length of the name, its bytes and the tagged value. */
  lemma EntryLayout(name: Text, value: Option<Text>)
    requires |name| < WORD
    ensures var entry, n := Entry(name, value), |name|;
            && |entry| >= 8 + n
            && FromBytes(entry[..8]) == n && entry[8..8 + n] == name && entry[8 + n..] == Tagged(value)
  {
    WordBytes(|name|);
    hide LowBytes, FromBytes, Tagged;
    Parts(LowBytes(|name|, 8), name, Tagged(value));
  }

  /** A present value is a 1, its length and its bytes; an absent one is a 0. */
  lemma TaggedLayout(value: Option<Text>)
    requires value.Some? ==> |value.value| < WORD
    ensures value.None? ==> Tagged(value) == [0]
    ensures value.Some? ==>
              var tagged := Tagged(value);
              |tagged| >= 9 && tagged[0] == 1 && FromBytes(tagged[1..9]) == |value.value| && tagged[9..] == value.value
  {
    if value.Some? {
      WordBytes(|value.value|);
      hide LowBytes, FromBytes;
      Parts([1], LowBytes(|value.value|, 8), value.value);
    }
  }

  lemma Parts(a: Text, b: Text, c: Text)
    ensures var whole := a + b + c;
            && whole == a + (b + c)
            && whole[..|a|] == a && whole[|a|..|a| + |b|] == b && whole[|a| + |b|..] == c
  {}

  function FileStream(files: seq<(Text, Text)>): Text {
    if files == [] then [] else Field(files[0].0) + Field(files[0].1) + FileStream(files[1..])
  }

  function EntryStream(entries: seq<(Text, Option<Text>)>): Text {
    if entries == [] then [] else Entry(entries[0].0, entries[0].1) + EntryStream(entries[1..])
  }

  function RequiredEntries(names: seq<Text>, values: seq<Text>): (r: seq<(Text, Option<Text>)>)
    requires |names| == |values|
    ensures |r| == |names|
  {
    seq(|names|, i requires 0 <= i < |names| => (names[i], Some(values[i])))
  }

  function OptionalEntries(names: seq<Text>, values: seq<Option<Text>>): (r: seq<(Text, Option<Text>)>)
    requires |names| == |values|
    ensures |r| == |names|
  {
    seq(|names|, i requires 0 <= i < |names| => (names[i], values[i]))
  }

  function ConfigurationEntries(configuration: seq<(Text, Text)>): seq<(Text, Option<Text>)> {
    seq(|configuration|, i requires 0 <= i < |configuration| => (configuration[i].0, Some(configuration[i].1)))
  }

  function ToolStream(b: Build): Text {
    Field(Ascii("RUSTC")) + Field(b.rustcIdentity) + Field(Ascii("CARGO")) + Field(b.cargoIdentity)
  }

  /** Everything that follows the files. */
  function AfterFiles(b: Build): Text
    requires |b.required| == |REQUIRED| && |b.optional| == |OPTIONAL|
  {
    EntryStream(RequiredEntries(REQUIRED, b.required))
    + (EntryStream(OptionalEntries(OPTIONAL, b.optional))
       + (EntryStream(ConfigurationEntries(b.configuration)) + ToolStream(b)))
  }

  function Stream(b: Build): Text
    requires |b.required| == |REQUIRED| && |b.optional| == |OPTIONAL|
  {
    FileStream(b.files) + AfterFiles(b)
  }

  // ---------- Unique decoding ----------

  /** A byte string that fits the machine: its length is a 64-bit word. */
  predicate Fits(text: Text) {
    |text| < WORD
  }

  ghost predicate BuildValid(b: Build) {
    && |b.required| == |REQUIRED| && |b.optional| == |OPTIONAL|
    && (forall f | f in b.files :: FileFits(f))
    && (forall v | v in b.required :: Fits(v))
    && (forall v | v in b.optional :: v.Some? ==> Fits(v.value))
    && (forall c | c in b.configuration :: ConfigurationName(c.0) && Fits(c.0) && Fits(c.1))
    && Fits(b.rustcIdentity) && Fits(b.cargoIdentity)
  }

  /** A length-prefixed field can be split off the front of a stream in one way only. */
  lemma FieldUnique(a: Text, x: Text, b: Text, y: Text)
    requires Fits(a) && Fits(b) && Field(a) + x == Field(b) + y
    ensures a == b && x == y
  {
    var s, t := Field(a) + x, Field(b) + y;
    assert s[..8] == LowBytes(|a|, 8) && t[..8] == LowBytes(|b|, 8);
    WordBytes(|a|);
    WordBytes(|b|);
    assert s[8..8 + |a|] == a && t[8..8 + |b|] == b;
    assert s[8 + |a|..] == x && t[8 + |b|..] == y;
  }

  lemma TaggedUnique(a: Option<Text>, x: Text, b: Option<Text>, y: Text)
    requires (a.Some? ==> Fits(a.value)) && (b.Some? ==> Fits(b.value)) && Tagged(a) + x == Tagged(b) + y
    ensures a == b && x == y
  {
    hide Field;
    var s, t := Tagged(a) + x, Tagged(b) + y;
    assert s[0] == t[0];
    if a.Some? {
      assert s[1..] == Field(a.value) + x && t[1..] == Field(b.value) + y;
      FieldUnique(a.value, x, b.value, y);
    } else {
      assert s[1..] == x && t[1..] == y;
    }
  }

  ghost predicate EntryFits(e: (Text, Option<Text>)) {
    Fits(e.0) && (e.1.Some? ==> Fits(e.1.value))
  }

  lemma EntryUnique(a: (Text, Option<Text>), x: Text, b: (Text, Option<Text>), y: Text)
    requires EntryFits(a) && EntryFits(b) && Entry(a.0, a.1) + x == Entry(b.0, b.1) + y
    ensures a == b && x == y
  {
    hide Field, Tagged;
    assert Entry(a.0, a.1) + x == Field(a.0) + (Tagged(a.1) + x);
    assert Entry(b.0, b.1) + y == Field(b.0) + (Tagged(b.1) + y);
    FieldUnique(a.0, Tagged(a.1) + x, b.0, Tagged(b.1) + y);
    TaggedUnique(a.1, x, b.1, y);
  }

  lemma NoEntries(x: Text)
    ensures EntryStream([]) + x == x
  {}

  lemma EntryStreamCons(a: seq<(Text, Option<Text>)>, x: Text)
    requires a != []
    ensures EntryStream(a) + x == Entry(a[0].0, a[0].1) + (EntryStream(a[1..]) + x)
  {
    hide Entry;
  }

  lemma FileStreamCons(a: seq<(Text, Text)>, x: Text)
    requires a != []
    ensures FileStream(a) + x == Field(a[0].0) + (Field(a[0].1) + (FileStream(a[1..]) + x))
  {
    hide Field;
  }

  lemma NoFiles(x: Text)
    ensures FileStream([]) + x == x
  {}

  /** Sections with the same number of entries. */
  lemma {:induction false} EntriesUnique(a: seq<(Text, Option<Text>)>, x: Text, b: seq<(Text, Option<Text>)>, y: Text)
    requires |a| == |b| && (forall e | e in a :: EntryFits(e)) && (forall e | e in b :: EntryFits(e))
    requires EntryStream(a) + x == EntryStream(b) + y
    ensures a == b && x == y
  {
    hide Entry, EntryFits, EntryStream;
    if a == [] {
      NoEntries(x);
      NoEntries(y);
    } else {
      EntryStreamCons(a, x);
      EntryStreamCons(b, y);
      EntryUnique(a[0], EntryStream(a[1..]) + x, b[0], EntryStream(b[1..]) + y);
      EntriesUnique(a[1..], x, b[1..], y);
    }
  }

  /** The configuration section ends where a name that is no configuration name starts. */
  lemma {:induction false} ConfigurationUnique(
    a: seq<(Text, Option<Text>)>, x: Text, b: seq<(Text, Option<Text>)>, y: Text, next: Text)
    requires forall e | e in a :: EntryFits(e) && ConfigurationName(e.0)
    requires forall e | e in b :: EntryFits(e) && ConfigurationName(e.0)
    requires Fits(next) && !ConfigurationName(next)
    requires EntryStream(a) + (Field(next) + x) == EntryStream(b) + (Field(next) + y)
    ensures a == b && x == y
    decreases |a| + |b|
  {
    hide Field, Entry, EntryStream, ConfigurationName;
    var s, t := Field(next) + x, Field(next) + y;
    NoEntries(s);
    NoEntries(t);
    if a == [] && b == [] {
      FieldUnique(next, x, next, y);
    } else if a == [] {
      EntriesStartNot(b, t, next, x);
    } else if b == [] {
      EntriesStartNot(a, s, next, y);
    } else {
      EntryStreamCons(a, s);
      EntryStreamCons(b, t);
      EntryUnique(a[0], EntryStream(a[1..]) + s, b[0], EntryStream(b[1..]) + t);
      ConfigurationUnique(a[1..], x, b[1..], y, next);
    }
  }

  lemma EntriesStartNot(b: seq<(Text, Option<Text>)>, rest: Text, next: Text, x: Text)
    requires b != [] && EntryFits(b[0]) && Fits(next) && b[0].0 != next
    ensures EntryStream(b) + rest != Field(next) + x
  {
    hide Field, Tagged;
    var tail := Tagged(b[0].1) + (EntryStream(b[1..]) + rest);
    assert EntryStream(b) + rest == Field(b[0].0) + tail;
    if Field(b[0].0) + tail == Field(next) + x {
      FieldUnique(b[0].0, tail, next, x);
    }
  }

  ghost predicate FileFits(f: (Text, Text)) {
    SourcePath(f.0) && Fits(f.0) && Fits(f.1)
  }

  /** The file section ends where a name that is no source path starts. */
  lemma {:induction false} FilesUnique(a: seq<(Text, Text)>, x: Text, b: seq<(Text, Text)>, y: Text, next: Text)
    requires (forall f | f in a :: FileFits(f)) && (forall f | f in b :: FileFits(f))
    requires Fits(next) && !SourcePath(next)
    requires FileStream(a) + (Field(next) + x) == FileStream(b) + (Field(next) + y)
    ensures a == b && x == y
    decreases |a| + |b|
  {
    hide Field, SourcePath, FileStream;
    var s, t := Field(next) + x, Field(next) + y;
    NoFiles(s);
    NoFiles(t);
    assert (a != [] ==> FileFits(a[0])) && (b != [] ==> FileFits(b[0]));
    if a == [] && b == [] {
      FieldUnique(next, x, next, y);
    } else if a == [] {
      FilesStartNot(b, t, next, x);
    } else if b == [] {
      FilesStartNot(a, s, next, y);
    } else {
      var restA, restB := FileStream(a[1..]) + s, FileStream(b[1..]) + t;
      FileStreamCons(a, s);
      FileStreamCons(b, t);
      FieldUnique(a[0].0, Field(a[0].1) + restA, b[0].0, Field(b[0].1) + restB);
      FieldUnique(a[0].1, restA, b[0].1, restB);
      FilesUnique(a[1..], x, b[1..], y, next);
    }
  }

  lemma FilesStartNot(b: seq<(Text, Text)>, rest: Text, next: Text, x: Text)
    requires b != [] && Fits(b[0].0) && Fits(next) && b[0].0 != next
    ensures FileStream(b) + rest != Field(next) + x
  {
    hide Field;
    FileStreamCons(b, rest);
    var tail := Field(b[0].1) + (FileStream(b[1..]) + rest);
    if Field(b[0].0) + tail == Field(next) + x {
      FieldUnique(b[0].0, tail, next, x);
    }
  }

  lemma MarkersAreNoMembers()
    ensures !SourcePath(REQUIRED[0]) && Fits(REQUIRED[0])
    ensures !ConfigurationName(Ascii("RUSTC")) && Fits(Ascii("RUSTC")) && Fits(Ascii("CARGO"))
  {
    assert REQUIRED[0][0] == 'T' as int && Ascii("Cargo.")[0] == 'C' as int && Ascii("crates/")[0] == 'c' as int;
    assert Ascii("RUSTC")[0] == 'R' as int;
    assert Ascii("CARGO_FEATURE_")[0] == 'C' as int && Ascii("CARGO_CFG_")[0] == 'C' as int;
  }

  lemma NamesFit()
    ensures forall n | n in REQUIRED + OPTIONAL :: Fits(n)
  {}

  lemma ToolsUnique(a: Build, b: Build)
    requires Fits(a.rustcIdentity) && Fits(a.cargoIdentity) && Fits(b.rustcIdentity) && Fits(b.cargoIdentity)
    requires Field(a.rustcIdentity) + (Field(Ascii("CARGO")) + Field(a.cargoIdentity))
          == Field(b.rustcIdentity) + (Field(Ascii("CARGO")) + Field(b.cargoIdentity))
    ensures a.rustcIdentity == b.rustcIdentity && a.cargoIdentity == b.cargoIdentity
  {
    var cargo := Ascii("CARGO");
    MarkersAreNoMembers();
    hide Field, Ascii;
    FieldUnique(a.rustcIdentity, Field(cargo) + Field(a.cargoIdentity),
                b.rustcIdentity, Field(cargo) + Field(b.cargoIdentity));
    FieldUnique(cargo, Field(a.cargoIdentity), cargo, Field(b.cargoIdentity));
    assert Field(a.cargoIdentity) + [] == Field(a.cargoIdentity)
        && Field(b.cargoIdentity) + [] == Field(b.cargoIdentity);
    FieldUnique(a.cargoIdentity, [], b.cargoIdentity, []);
  }

  lemma RequiredStartsWithName(b: Build)
    requires |b.required| == |REQUIRED| && |b.optional| == |OPTIONAL|
    ensures exists x :: AfterFiles(b) == Field(REQUIRED[0]) + x
  {
    hide Field, Tagged, Ascii;
    var entries := RequiredEntries(REQUIRED, b.required);
    var rest := EntryStream(OptionalEntries(OPTIONAL, b.optional))
                + (EntryStream(ConfigurationEntries(b.configuration)) + ToolStream(b));
    EntryStreamCons(entries, rest);
    var x := Tagged(entries[0].1) + (EntryStream(entries[1..]) + rest);
    assert AfterFiles(b) == Field(REQUIRED[0]) + x;
  }

  lemma EntriesFit(b: Build)
    requires BuildValid(b)
    ensures forall e | e in RequiredEntries(REQUIRED, b.required) :: EntryFits(e)
    ensures forall e | e in OptionalEntries(OPTIONAL, b.optional) :: EntryFits(e)
    ensures forall e | e in ConfigurationEntries(b.configuration) :: EntryFits(e) && ConfigurationName(e.0)
  {
    NamesFit();
    hide ConfigurationName;
    forall i | 0 <= i < |REQUIRED| ensures EntryFits(RequiredEntries(REQUIRED, b.required)[i]) {
      assert REQUIRED[i] in REQUIRED + OPTIONAL && b.required[i] in b.required;
    }
    forall i | 0 <= i < |OPTIONAL| ensures EntryFits(OptionalEntries(OPTIONAL, b.optional)[i]) {
      assert OPTIONAL[i] in REQUIRED + OPTIONAL && b.optional[i] in b.optional;
    }
  }

  lemma EntriesDetermineValues(a: Build, b: Build)
    requires |a.required| == |b.required| == |REQUIRED| && |a.optional| == |b.optional| == |OPTIONAL|
    ensures RequiredEntries(REQUIRED, a.required) == RequiredEntries(REQUIRED, b.required) ==> a.required == b.required
    ensures OptionalEntries(OPTIONAL, a.optional) == OptionalEntries(OPTIONAL, b.optional) ==> a.optional == b.optional
    ensures ConfigurationEntries(a.configuration) == ConfigurationEntries(b.configuration)
        ==> a.configuration == b.configuration
  {
    if RequiredEntries(REQUIRED, a.required) == RequiredEntries(REQUIRED, b.required) {
      forall i | 0 <= i < |REQUIRED| ensures a.required[i] == b.required[i] {
        assert RequiredEntries(REQUIRED, a.required)[i] == RequiredEntries(REQUIRED, b.required)[i];
      }
    }
    if OptionalEntries(OPTIONAL, a.optional) == OptionalEntries(OPTIONAL, b.optional) {
      forall i | 0 <= i < |OPTIONAL| ensures a.optional[i] == b.optional[i] {
        assert OptionalEntries(OPTIONAL, a.optional)[i] == OptionalEntries(OPTIONAL, b.optional)[i];
      }
    }
    var ca, cb := ConfigurationEntries(a.configuration), ConfigurationEntries(b.configuration);
    if ca == cb {
      assert |a.configuration| == |ca| == |b.configuration|;
      forall i | 0 <= i < |ca| ensures a.configuration[i] == b.configuration[i] { assert ca[i] == cb[i]; }
    }
  }

  /** The stream is uniquely decodable: equal streams come from equal builds. */
  lemma StreamUniquelyDecodable(a: Build, b: Build)
    requires BuildValid(a) && BuildValid(b)
    ensures Stream(a) == Stream(b) <==> a == b
  {
    if Stream(a) == Stream(b) {
      MarkersAreNoMembers();
      EntriesFit(a);
      EntriesFit(b);
      EntriesDetermineValues(a, b);
      RequiredStartsWithName(a);
      RequiredStartsWithName(b);
      hide Field, Ascii, EntryStream, FileStream, SourcePath, ConfigurationName, EntryFits, FileFits, Fits;
      var x :| AfterFiles(a) == Field(REQUIRED[0]) + x;
      var y :| AfterFiles(b) == Field(REQUIRED[0]) + y;
      FilesUnique(a.files, x, b.files, y, REQUIRED[0]);
      SectionsUnique(a, b);
    }
  }

  lemma SectionsUnique(a: Build, b: Build)
    requires BuildValid(a) && BuildValid(b) && AfterFiles(a) == AfterFiles(b)
    ensures a.required == b.required && a.optional == b.optional && a.configuration == b.configuration
    ensures a.rustcIdentity == b.rustcIdentity && a.cargoIdentity == b.cargoIdentity
  {
    MarkersAreNoMembers();
    EntriesFit(a);
    EntriesFit(b);
    EntriesDetermineValues(a, b);
    hide Field, Ascii, EntryStream, ConfigurationName, EntryFits, ToolStream;
    hide RequiredEntries, OptionalEntries, ConfigurationEntries;
    var ra, rb := RequiredEntries(REQUIRED, a.required), RequiredEntries(REQUIRED, b.required);
    var oa, ob := OptionalEntries(OPTIONAL, a.optional), OptionalEntries(OPTIONAL, b.optional);
    var ca, cb := ConfigurationEntries(a.configuration), ConfigurationEntries(b.configuration);
    EntriesUnique(ra, EntryStream(oa) + (EntryStream(ca) + ToolStream(a)),
                  rb, EntryStream(ob) + (EntryStream(cb) + ToolStream(b)));
    EntriesUnique(oa, EntryStream(ca) + ToolStream(a), ob, EntryStream(cb) + ToolStream(b));
    LastSectionUnique(a, ca, b, cb);
  }

  lemma LastSectionUnique(a: Build, ca: seq<(Text, Option<Text>)>, b: Build, cb: seq<(Text, Option<Text>)>)
    requires Fits(a.rustcIdentity) && Fits(a.cargoIdentity) && Fits(b.rustcIdentity) && Fits(b.cargoIdentity)
    requires forall e | e in ca :: EntryFits(e) && ConfigurationName(e.0)
    requires forall e | e in cb :: EntryFits(e) && ConfigurationName(e.0)
    requires EntryStream(ca) + ToolStream(a) == EntryStream(cb) + ToolStream(b)
    ensures ca == cb && a.rustcIdentity == b.rustcIdentity && a.cargoIdentity == b.cargoIdentity
  {
    MarkersAreNoMembers();
    hide Field, Ascii, EntryStream, ConfigurationName, EntryFits;
    var rustc, cargo := Ascii("RUSTC"), Ascii("CARGO");
    var ta := Field(a.rustcIdentity) + (Field(cargo) + Field(a.cargoIdentity));
    var tb := Field(b.rustcIdentity) + (Field(cargo) + Field(b.cargoIdentity));
    assert ToolStream(a) == Field(rustc) + ta && ToolStream(b) == Field(rustc) + tb;
    ConfigurationUnique(ca, ta, cb, tb, rustc);
    ToolsUnique(a, b);
  }

  // ---------- The build script ----------

  predicate RequiredPresent(env: map<Text, Text>) {
    forall i | 0 <= i < |REQUIRED| :: REQUIRED[i] in env
  }

  /** The build described by the files, the environment and the tools, with its configuration variables listed. */
  function BuildOf(
    files: seq<(Text, Text)>, env: map<Text, Text>, configuration: seq<Text>, rustc: Text, cargo: Text): Build
    requires RequiredPresent(env) && forall n | n in configuration :: n in env
  {
    Build(files,
          seq(|REQUIRED|, i requires 0 <= i < |REQUIRED| => env[REQUIRED[i]]),
          seq(|OPTIONAL|, i requires 0 <= i < |OPTIONAL| => Get(env, OPTIONAL[i])),
          seq(|configuration|, i requires 0 <= i < |configuration| => (configuration[i], env[configuration[i]])),
          rustc, cargo)
  }

  function EnvEntries(names: seq<Text>, env: map<Text, Text>): (r: seq<(Text, Option<Text>)>)
    ensures |r| == |names|
  {
    seq(|names|, i requires 0 <= i < |names| => (names[i], Get(env, names[i])))
  }

  lemma BuildOfEntries(
    files: seq<(Text, Text)>, env: map<Text, Text>, configuration: seq<Text>, rustc: Text, cargo: Text)
    requires RequiredPresent(env) && forall n | n in configuration :: n in env
    ensures var b := BuildOf(files, env, configuration, rustc, cargo);
            && RequiredEntries(REQUIRED, b.required) == EnvEntries(REQUIRED, env)
            && OptionalEntries(OPTIONAL, b.optional) == EnvEntries(OPTIONAL, env)
            && ConfigurationEntries(b.configuration) == EnvEntries(configuration, env)
  {
    hide Ascii;
  }

  lemma {:induction false} EntryStreamSnoc(a: seq<(Text, Option<Text>)>, e: (Text, Option<Text>))
    ensures EntryStream(a + [e]) == EntryStream(a) + Entry(e.0, e.1)
  {
    hide Entry;
    if a == [] {
      assert a + [e] == [e] && [e][1..] == [];
      assert EntryStream([]) == [];
    } else {
      assert (a + [e])[1..] == a[1..] + [e];
      EntryStreamSnoc(a[1..], e);
    }
  }

  lemma {:induction false} FileStreamSnoc(a: seq<(Text, Text)>, f: (Text, Text))
    ensures FileStream(a + [f]) == FileStream(a) + Field(f.0) + Field(f.1)
  {
    hide Field;
    if a == [] {
      assert a + [f] == [f] && [f][1..] == [];
      assert FileStream([]) == [];
    } else {
      assert (a + [f])[1..] == a[1..] + [f];
      FileStreamSnoc(a[1..], f);
    }
  }

  lemma EnvEntriesSnoc(names: seq<Text>, env: map<Text, Text>, i: nat)
    requires i < |names|
    ensures EnvEntries(names[..i + 1], env) == EnvEntries(names[..i], env) + [(names[i], Get(env, names[i]))]
  {}

  /** The hash, reduced to the bytes fed into it. */
  class Hasher {
    var fed: Text

    constructor ()
      ensures fed == []
    {
      fed := [];
    }

    method Update(bytes: Text)
      modifies this
      ensures fed == old(fed) + bytes
    {
      fed := fed + bytes;
    }

    method HashField(bytes: Text)
      modifies this
      ensures fed == old(fed) + Field(bytes)
    {
      Update(LowBytes(|bytes|, 8));
      Update(bytes);
    }

    /** A missing required variable stops the build. */
    method HashEnvironment(env: map<Text, Text>, name: Text, required: bool) returns (ok: bool)
      modifies this
      ensures ok <==> name in env || !required
      ensures ok ==> fed == old(fed) + Entry(name, Get(env, name))
    {
      hide Field;
      HashField(name);
      if name in env {
        Update([1]);
        HashField(env[name]);
        ok := true;
      } else if !required {
        Update([0]);
        ok := true;
      } else {
        ok := false;
      }
    }

    method HashVariables(env: map<Text, Text>, names: seq<Text>, required: bool) returns (ok: bool)
      modifies this
      ensures ok <==> (required ==> forall n | n in names :: n in env)
      ensures ok ==> fed == old(fed) + EntryStream(EnvEntries(names, env))
    {
      hide Entry, EntryStream, EnvEntries;
      NoVariables(env, old(fed));
      for i := 0 to |names|
        invariant required ==> forall n | n in names[..i] :: n in env
        invariant fed == old(fed) + EntryStream(EnvEntries(names[..i], env))
      {
        var found := HashEnvironment(env, names[i], required);
        if !found {
          return false;
        }
        EnvEntriesSnoc(names, env, i);
        EntryStreamSnoc(EnvEntries(names[..i], env), (names[i], Get(env, names[i])));
        assert names[..i + 1] == names[..i] + [names[i]];
      }
      assert names[..|names|] == names;
      ok := true;
    }

    method HashFiles(files: seq<(Text, Text)>)
      modifies this
      ensures fed == old(fed) + FileStream(files)
    {
      hide Field;
      assert old(fed) + FileStream([]) == old(fed);
      for i := 0 to |files|
        invariant fed == old(fed) + FileStream(files[..i])
      {
        HashField(files[i].0);
        HashField(files[i].1);
        FileStreamSnoc(files[..i], files[i]);
        assert files[..i + 1] == files[..i] + [files[i]];
      }
      assert files[..|files|] == files;
    }

    /** The identity command of a tool has to succeed. */
    method HashToolIdentity(variable: Text, output: Option<Text>) returns (ok: bool)
      modifies this
      ensures ok <==> output.Some?
      ensures ok ==> fed == old(fed) + Field(variable) + Field(output.value)
    {
      if output.None? {
        return false;
      }
      HashField(variable);
      HashField(output.value);
      ok := true;
    }
  }

  lemma NoVariables(env: map<Text, Text>, x: Text)
    ensures x + EntryStream(EnvEntries([], env)) == x
  {}

  lemma RequiredNames(env: map<Text, Text>)
    ensures (forall n | n in REQUIRED :: n in env) <==> RequiredPresent(env)
  {
    hide Ascii;
  }

  /** The stream of a build, section by section in the order of feeding. */
  lemma StreamInOrder(
    files: seq<(Text, Text)>, env: map<Text, Text>, configuration: seq<Text>, rustc: Text, cargo: Text)
    requires RequiredPresent(env) && forall n | n in configuration :: n in env
    ensures Stream(BuildOf(files, env, configuration, rustc, cargo))
         == [] + FileStream(files) + EntryStream(EnvEntries(REQUIRED, env)) + EntryStream(EnvEntries(OPTIONAL, env))
            + EntryStream(EnvEntries(configuration, env))
            + Field(Ascii("RUSTC")) + Field(rustc) + Field(Ascii("CARGO")) + Field(cargo)
  {
    hide Field, EntryStream, FileStream, EnvEntries, Ascii, RequiredEntries, OptionalEntries, ConfigurationEntries;
    BuildOfEntries(files, env, configuration, rustc, cargo);
  }

  /**
    The order in which the build script feeds the hash. The file list is the sorted one and the
    configuration names are those the script has found in the environment. It fails exactly when a
    required variable is missing or a tool does not report its identity.
   */
  method FeedBuildKey(files: seq<(Text, Text)>, env: map<Text, Text>, configuration: seq<Text>,
                      rustc: Option<Text>, cargo: Option<Text>) returns (key: Option<Text>)
    requires forall n | n in configuration :: n in env
    ensures key.Some? <==> RequiredPresent(env) && rustc.Some? && cargo.Some?
    ensures key.Some? ==> key.value == Stream(BuildOf(files, env, configuration, rustc.value, cargo.value))
  {
    hide Field, EntryStream, FileStream, EnvEntries, Ascii, RequiredPresent, Stream, BuildOf;
    RequiredNames(env);
    var hash := new Hasher();
    hash.HashFiles(files);
    var ok := hash.HashVariables(env, REQUIRED, true);
    if !ok { return None; }
    ok := hash.HashVariables(env, OPTIONAL, false);
    ok := hash.HashVariables(env, configuration, true);
    ok := hash.HashToolIdentity(Ascii("RUSTC"), rustc);
    if !ok { return None; }
    ok := hash.HashToolIdentity(Ascii("CARGO"), cargo);
    if !ok { return None; }
    StreamInOrder(files, env, configuration, rustc.value, cargo.value);
    key := Some(hash.fed);
  }

  /** The configuration names are exactly the Cargo-supplied variables of the environment. */
  ghost predicate ListsConfiguration(configuration: seq<Text>, env: map<Text, Text>) {
    forall n :: n in configuration <==> n in env && ConfigurationName(n)
  }

  /** The variables a key has to tell apart. */
  predicate Covered(name: Text) {
    || name in {Ascii("TARGET"), Ascii("HOST"), Ascii("PROFILE"), Ascii("OPT_LEVEL"), Ascii("DEBUG")}
    || name in {Ascii("RUSTC"), Ascii("CARGO"), Ascii("CARGO_ENCODED_RUSTFLAGS")}
    || name in {Ascii("RUSTC_WRAPPER"), Ascii("RUSTC_WORKSPACE_WRAPPER")}
    || Ascii("CARGO_FEATURE_") <= name
    || Ascii("CARGO_CFG_") <= name
  }

  lemma CoveredExactly(name: Text)
    ensures Covered(name) <==> name in REQUIRED || name in OPTIONAL || ConfigurationName(name)
  {
    hide Ascii;
  }

  /** Builds with the same stream agree on every file, every variable the key covers and both tools. */
  lemma EqualStreamsSameInputs(
    files: seq<(Text, Text)>, env: map<Text, Text>, configuration: seq<Text>, rustc: Text, cargo: Text,
    files': seq<(Text, Text)>, env': map<Text, Text>, configuration': seq<Text>, rustc': Text, cargo': Text)
    requires RequiredPresent(env) && ListsConfiguration(configuration, env)
    requires RequiredPresent(env') && ListsConfiguration(configuration', env')
    requires BuildValid(BuildOf(files, env, configuration, rustc, cargo))
    requires BuildValid(BuildOf(files', env', configuration', rustc', cargo'))
    requires Stream(BuildOf(files, env, configuration, rustc, cargo))
          == Stream(BuildOf(files', env', configuration', rustc', cargo'))
    ensures files == files' && rustc == rustc' && cargo == cargo'
    ensures forall n | Covered(n) :: Get(env, n) == Get(env', n)
  {
    StreamUniquelyDecodable(BuildOf(files, env, configuration, rustc, cargo),
                            BuildOf(files', env', configuration', rustc', cargo'));
    hide Stream, BuildValid, Covered, ConfigurationName;
    EqualBuildsSameInputs(files, env, configuration, rustc, cargo, files', env', configuration', rustc', cargo');
    forall n | Covered(n) ensures Get(env, n) == Get(env', n) { CoveredExactly(n); }
  }

  lemma EqualBuildsSameInputs(
    files: seq<(Text, Text)>, env: map<Text, Text>, configuration: seq<Text>, rustc: Text, cargo: Text,
    files': seq<(Text, Text)>, env': map<Text, Text>, configuration': seq<Text>, rustc': Text, cargo': Text)
    requires RequiredPresent(env) && ListsConfiguration(configuration, env)
    requires RequiredPresent(env') && ListsConfiguration(configuration', env')
    requires BuildOf(files, env, configuration, rustc, cargo) == BuildOf(files', env', configuration', rustc', cargo')
    ensures files == files' && rustc == rustc' && cargo == cargo'
    ensures forall n | n in REQUIRED || n in OPTIONAL || ConfigurationName(n) :: Get(env, n) == Get(env', n)
  {
    hide Ascii, ConfigurationName;
    var a, b := BuildOf(files, env, configuration, rustc, cargo), BuildOf(files', env', configuration', rustc', cargo');
    forall i | 0 <= i < |REQUIRED| ensures Get(env, REQUIRED[i]) == Get(env', REQUIRED[i]) {
      assert a.required[i] == b.required[i];
    }
    forall i | 0 <= i < |OPTIONAL| ensures Get(env, OPTIONAL[i]) == Get(env', OPTIONAL[i]) {
      assert a.optional[i] == b.optional[i];
    }
    assert |configuration| == |a.configuration| == |configuration'|;
    forall i | 0 <= i < |configuration|
      ensures configuration[i] == configuration'[i] && Get(env, configuration[i]) == Get(env', configuration[i])
    {
      assert a.configuration[i] == b.configuration[i];
    }
    assert configuration == configuration';
    forall n | ConfigurationName(n) ensures Get(env, n) == Get(env', n) {
      assert n in configuration <==> n in env;
    }
  }
}
