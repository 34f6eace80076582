/**
 * The INI environment loader.  A parsed INI file is a tree of keyed
 * entries; every leaf becomes one environment variable whose name is the
 * upper-cased path of keys joined by `_` under an optional prefix.  The
 * file system is an input (each existing file with what parse_ini_file
 * makes of it) and the process environment is a map that putenv updates.
 */
module Environment {
  import opened Optional
  import opened Strings

  /** A value of the parsed INI array: a scalar or a nested array. */
  datatype IniValue = Leaf(text: string) | Section(entries: seq<IniEntry>)

  /** One key of a parsed INI array, in file order. */
  datatype IniEntry = IniEntry(key: string, value: IniValue)

  /** One putenv("NAME=value") call. */
  datatype Write = Write(name: string, text: string)

  /** prefix: the prefix and `_` when one is set and non-empty, otherwise null (empty once concatenated). */
  function Prefix(p: Option<string>): (r: string)
    ensures r == "" <==> p.None? || p.value == ""
    ensures r != "" ==> r == p.value + "_"
  {
    if p.Some? && p.value != "" then p.value + "_" else ""
  }

  /** The putenv calls parseArray makes for an array, in order. */
  function Writes(entries: seq<IniEntry>, prefix: Option<string>): seq<Write>
    decreases entries
  {
    if entries == [] then []
    else EntryWrites(entries[0], prefix) + Writes(entries[1..], prefix)
  }

  /** The putenv calls for one key: its leaf, or everything beneath it. */
  function EntryWrites(e: IniEntry, prefix: Option<string>): seq<Write>
    decreases e
  {
    match e.value
    case Leaf(t) => [Write(Upper(Prefix(prefix) + e.key), t)]
    case Section(es) => Writes(es, Some(Prefix(prefix) + e.key))
  }

  /** The environment after a series of putenv calls. */
  function Apply(env: map<string, string>, writes: seq<Write>): map<string, string>
  {
    if writes == [] then env
    else Apply(env, writes[..|writes| - 1])[writes[|writes| - 1].name := writes[|writes| - 1].text]
  }

  class Env {
    /** $parsedIni: null until a file was loaded; a file parse_ini_file rejects leaves false, read as no entries. */
    var parsedIni: Option<seq<IniEntry>>
    /** The process environment. */
    var environment: map<string, string>

    constructor (environment: map<string, string>)
      ensures parsedIni == None && this.environment == environment
    {
      parsedIni := None;
      this.environment := environment;
    }

    /** load: parse the file into $parsedIni if it exists. */
    method Load(file: string, files: map<string, Option<seq<IniEntry>>>) returns (loaded: bool)
      modifies this
      ensures loaded <==> file in files
      ensures parsedIni == if loaded then Some(Entries(files[file])) else old(parsedIni)
      ensures environment == old(environment)
    {
      if file in files {
        parsedIni := Some(Entries(files[file]));
        return true;
      }
      return false;
    }

    /** parseArray: one putenv per leaf, recursing into nested arrays with the extended prefix. */
    method ParseArray(entries: seq<IniEntry>, prefix: Option<string>)
      modifies this
      ensures environment == Apply(old(environment), Writes(entries, prefix))
      ensures parsedIni == old(parsedIni)
      decreases entries
    {
      for i := 0 to |entries|
        invariant environment == Apply(old(environment), Writes(entries[..i], prefix))
        invariant parsedIni == old(parsedIni)
      {
        ghost var before := environment;
        var e := entries[i];
        match e.value {
          case Section(es) =>
            ParseArray(es, Some(Prefix(prefix) + e.key));
          case Leaf(t) =>
            environment := environment[Upper(Prefix(prefix) + e.key) := t];
            ApplyOne(before, Write(Upper(Prefix(prefix) + e.key), t));
        }
        Step(old(environment), entries, i, prefix);
      }
      assert entries[..|entries|] == entries;
    }

    /** parse: load the file and, only if it exists, export its entries. */
    method Parse(file: string, files: map<string, Option<seq<IniEntry>>>, prefix: Option<string>)
      modifies this
      ensures file !in files ==> environment == old(environment) && parsedIni == old(parsedIni)
      ensures file in files ==> (parsedIni == Some(Entries(files[file]))
                                 && environment == Apply(old(environment), Writes(Entries(files[file]), prefix)))
    {
      var loaded := Load(file, files);
      if loaded {
        ParseArray(parsedIni.value, prefix);
      }
    }
  }

  /** What foreach sees of parse_ini_file's result: the entries, or none for false. */
  function Entries(parsed: Option<seq<IniEntry>>): seq<IniEntry>
  {
    if parsed.Some? then parsed.value else []
  }

  // ---- properties ----------------------------------------------------------------

  lemma ApplyOne(env: map<string, string>, w: Write)
    ensures Apply(env, [w]) == env[w.name := w.text]
  {
    assert [w][..0] == [];
  }

  /** One round of parseArray's loop: the writes of entry i follow those of the entries before it. */
  lemma Step(env: map<string, string>, entries: seq<IniEntry>, i: nat, prefix: Option<string>)
    requires i < |entries|
    ensures Apply(Apply(env, Writes(entries[..i], prefix)), EntryWrites(entries[i], prefix))
         == Apply(env, Writes(entries[..i + 1], prefix))
  {
    var e := entries[i];
    var front := Writes(entries[..i], prefix);
    assert entries[..i + 1] == entries[..i] + [e];
    assert [e][1..] == [];
    assert Writes([e], prefix) == EntryWrites(e, prefix) + Writes([], prefix);
    assert Writes([e], prefix) == EntryWrites(e, prefix);
    WritesAppend(entries[..i], [e], prefix);
    assert Writes(entries[..i + 1], prefix) == front + EntryWrites(e, prefix);
    ApplyAppend(env, front, EntryWrites(e, prefix));
  }

  lemma {:induction false} WritesAppend(a: seq<IniEntry>, b: seq<IniEntry>, prefix: Option<string>)
    ensures Writes(a + b, prefix) == Writes(a, prefix) + Writes(b, prefix)
    decreases |a|
  {
    if a == [] {
      assert a + b == b;
    } else {
      assert (a + b)[0] == a[0];
      assert (a + b)[1..] == a[1..] + b;
      WritesAppend(a[1..], b, prefix);
    }
  }

  lemma {:induction false} ApplyAppend(env: map<string, string>, a: seq<Write>, b: seq<Write>)
    ensures Apply(env, a + b) == Apply(Apply(env, a), b)
    decreases |b|
  {
    if b == [] {
      assert a + b == a;
    } else {
      assert (a + b)[..|a + b| - 1] == a + b[..|b| - 1];
      ApplyAppend(env, a, b[..|b| - 1]);
    }
  }

  /** Every variable name parseArray generates is upper case. */
  lemma {:induction false} NamesUppercase(entries: seq<IniEntry>, prefix: Option<string>)
    ensures forall i :: 0 <= i < |Writes(entries, prefix)| ==> NoLowerCase(Writes(entries, prefix)[i].name)
    decreases entries
  {
    if entries != [] {
      EntryNamesUppercase(entries[0], prefix);
      NamesUppercase(entries[1..], prefix);
    }
  }

  lemma {:induction false} EntryNamesUppercase(e: IniEntry, prefix: Option<string>)
    ensures forall i :: 0 <= i < |EntryWrites(e, prefix)| ==> NoLowerCase(EntryWrites(e, prefix)[i].name)
    decreases e
  {
    match e.value
    case Leaf(t) => UpperHasNoLowerCase(Prefix(prefix) + e.key);
    case Section(es) => NamesUppercase(es, Some(Prefix(prefix) + e.key));
  }

  /** A chain of single-key nested arrays ending in one leaf. */
  function Chain(keys: seq<string>, t: string): IniEntry
    requires |keys| > 0
  {
    if |keys| == 1 then IniEntry(keys[0], Leaf(t))
    else IniEntry(keys[0], Section([Chain(keys[1..], t)]))
  }

  /**
   * A leaf nested under non-empty keys gets the name of its key path
   * joined by `_` under the prefix, upper-cased.
   */
  lemma {:induction false} NestedName(keys: seq<string>, t: string, prefix: Option<string>)
    requires |keys| > 0
    requires forall i :: 0 <= i < |keys| ==> keys[i] != ""
    ensures Writes([Chain(keys, t)], prefix) == [Write(Upper(Prefix(prefix) + Join("_", keys)), t)]
  {
    var c := Chain(keys, t);
    assert [c][1..] == [];
    if |keys| > 1 {
      var p := Some(Prefix(prefix) + keys[0]);
      NestedName(keys[1..], t, p);
      assert Prefix(p) == Prefix(prefix) + keys[0] + "_";
      assert Join("_", keys) == keys[0] + "_" + Join("_", keys[1..]);
      assert Prefix(prefix) + keys[0] + "_" + Join("_", keys[1..]) == Prefix(prefix) + Join("_", keys);
    }
  }

  /** A later write of the same name wins; names written nowhere keep their value. */
  lemma {:induction false} LaterWriteWins(env: map<string, string>, a: seq<Write>, w: Write, b: seq<Write>)
    requires forall i :: 0 <= i < |b| ==> b[i].name != w.name
    ensures w.name in Apply(env, a + [w] + b) && Apply(env, a + [w] + b)[w.name] == w.text
    decreases |b|
  {
    if b == [] {
      assert a + [w] + b == a + [w];
      assert (a + [w])[..|a + [w]| - 1] == a;
    } else {
      var n := |b| - 1;
      assert (a + [w] + b)[..|a + [w] + b| - 1] == a + [w] + b[..n];
      LaterWriteWins(env, a, w, b[..n]);
    }
  }

  lemma {:induction false} UnwrittenKept(env: map<string, string>, writes: seq<Write>, name: string)
    requires forall i :: 0 <= i < |writes| ==> writes[i].name != name
    ensures name in Apply(env, writes) <==> name in env
    ensures name in env ==> Apply(env, writes)[name] == env[name]
    decreases |writes|
  {
    if writes != [] {
      UnwrittenKept(env, writes[..|writes| - 1], name);
    }
  }

  /** Leaves are written in array order: each entry's writes follow those of the entries before it. */
  lemma {:induction false} WritesInOrder(entries: seq<IniEntry>, i: nat, prefix: Option<string>)
    requires i < |entries|
    ensures Writes(entries, prefix) ==
      Writes(entries[..i], prefix) + EntryWrites(entries[i], prefix) + Writes(entries[i + 1..], prefix)
  {
    assert entries == entries[..i] + [entries[i]] + entries[i + 1..];
    WritesAppend(entries[..i] + [entries[i]], entries[i + 1..], prefix);
    WritesAppend(entries[..i], [entries[i]], prefix);
    assert [entries[i]][1..] == [];
  }
}
