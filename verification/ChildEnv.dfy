/**
 The environment of a child process: inherited variables that match an allow list, then the
 caller's own. What matters is how the child reads the list, where the last entry wins.
 */
module ChildEnv {
  import opened Common
  import Names

  datatype Options = Options(base: seq<string>, allow: seq<string>, vars: map<string, string>)

  datatype Built = Env(out: seq<string>) | Invalid(name: string) | Refused(name: string)

  // ---------- names ----------

  predicate Letter(c: char)
  {
    'A' <= c <= 'Z' || 'a' <= c <= 'z' || c == '_'
  }

  predicate ValidName(name: string)
  {
    name != "" && Letter(name[0]) && forall i :: 0 <= i < |name| ==> Letter(name[i]) || '0' <= name[i] <= '9'
  }

  predicate Space(c: char)
  {
    c == ' ' || '\t' <= c <= '\r' || c == '\U{85}' || c == '\U{A0}'
  }

  function Trimmed(s: string): string
    decreases |s|
  {
    if s == "" then s
    else if Space(s[0]) then Trimmed(s[1..])
    else if Space(s[|s| - 1]) then Trimmed(s[..|s| - 1])
    else s
  }

  function Upper(s: string): (u: string)
    ensures |u| == |s|
  {
    if s == "" then ""
    else [if 'a' <= s[0] <= 'z' then s[0] - 'a' + 'A' else s[0]] + Upper(s[1..])
  }

  const DANGEROUS: set<string> :=
    {"BASH_ENV", "ENV", "IFS", "NODE_OPTIONS", "NODE_PATH", "PYTHONHOME", "PYTHONPATH", "PYTHONSTARTUP", "RUBYLIB",
     "RUBYOPT", "PERL5LIB", "PERL5OPT", "CLASSPATH", "JAVA_TOOL_OPTIONS", "GIT_EXEC_PATH", "GIT_SSH",
     "GIT_SSH_COMMAND", "PROMPT_COMMAND", "ZDOTDIR"}

  predicate Dangerous(name: string)
  {
    var u := Upper(Trimmed(name));
    u == "" || "LD_" <= u || "DYLD_" <= u || u in DANGEROUS
  }

  predicate Safe(name: string)
  {
    ValidName(name) && !Dangerous(name)
  }

  lemma ValidNameIsTrimmed(name: string)
    requires ValidName(name)
    ensures Trimmed(name) == name
  {
  }

  // Case does not disguise a dangerous name.
  lemma DangerousIgnoresCase(a: string, b: string)
    requires ValidName(a) && ValidName(b) && Upper(a) == Upper(b)
    ensures Dangerous(a) <==> Dangerous(b)
  {
    ValidNameIsTrimmed(a);
    ValidNameIsTrimmed(b);
  }

  // ---------- entries ----------

  function IndexOf(s: string, c: char): (i: nat)
    ensures i <= |s| && (i < |s| ==> s[i] == c) && forall j :: 0 <= j < i ==> s[j] != c
  {
    if s == "" then 0 else if s[0] == c then 0 else 1 + IndexOf(s[1..], c)
  }

  lemma IndexIs(s: string, c: char, k: nat)
    requires k < |s| && s[k] == c && forall j :: 0 <= j < k ==> s[j] != c
    ensures IndexOf(s, c) == k
  {
    var i := IndexOf(s, c);
    assert i <= k;
  }

  // The name of a NAME=VALUE entry, cut at its first '='.
  function NameOf(pair: string): Option<string>
  {
    var i := IndexOf(pair, '=');
    if i < |pair| then Some(pair[..i]) else None
  }

  function ValueOf(pair: string): string
    requires NameOf(pair).Some?
  {
    pair[IndexOf(pair, '=') + 1..]
  }

  function Entry(name: string, value: string): string
  {
    name + "=" + value
  }

  lemma EntryReads(name: string, value: string)
    requires ValidName(name)
    ensures NameOf(Entry(name, value)) == Some(name) && ValueOf(Entry(name, value)) == value
  {
    var pair := Entry(name, value);
    assert pair[|name|] == '=';
    assert forall j :: 0 <= j < |name| ==> pair[j] == name[j] != '=';
    IndexIs(pair, '=', |name|);
    assert pair[..|name|] == name && pair[|name| + 1..] == value;
  }

  // How a process reads its environment list: the last entry for a name wins.
  function Read(env: seq<string>, name: string): Option<string>
  {
    if env == [] then None
    else
      var last := env[|env| - 1];
      if NameOf(last) == Some(name) then Some(ValueOf(last)) else Read(env[..|env| - 1], name)
  }

  lemma {:induction false} ReadConcat(a: seq<string>, b: seq<string>, name: string)
    ensures Read(a + b, name) == if Read(b, name).Some? then Read(b, name) else Read(a, name)
    decreases |b|
  {
    if b == [] {
      assert a + b == a;
    } else {
      assert (a + b)[..|a + b| - 1] == a + b[..|b| - 1];
      ReadConcat(a, b[..|b| - 1], name);
    }
  }

  function Entries(names: seq<string>, values: map<string, string>): (env: seq<string>)
    requires forall n :: n in names ==> n in values
    ensures |env| == |names| && forall i :: 0 <= i < |names| ==> env[i] == Entry(names[i], values[names[i]])
  {
    seq(|names|, i requires 0 <= i < |names| => Entry(names[i], values[names[i]]))
  }

  lemma {:induction false} ReadEntries(names: seq<string>, values: map<string, string>, name: string)
    requires forall n :: n in names ==> n in values && ValidName(n)
    ensures Read(Entries(names, values), name) == if name in names then Some(values[name]) else None
    decreases |names|
  {
    if names != [] {
      var k := |names| - 1;
      assert Entries(names, values)[..k] == Entries(names[..k], values);
      EntryReads(names[k], values[names[k]]);
      ReadEntries(names[..k], values, name);
      assert names == names[..k] + [names[k]];
    }
  }

  // ---------- what is inherited ----------

  // The usable variables of the base list.
  function BaseMap(base: seq<string>): (m: map<string, string>)
    ensures forall n :: n in m ==> Safe(n)
  {
    if base == [] then map[]
    else
      var last := base[|base| - 1];
      var before := BaseMap(base[..|base| - 1]);
      if NameOf(last).Some? && Safe(NameOf(last).value) then before[NameOf(last).value := ValueOf(last)] else before
  }

  // It is what a process would read, restricted to safe names.
  lemma {:induction false} BaseMapReads(base: seq<string>, name: string)
    ensures name in BaseMap(base) <==> Safe(name) && Read(base, name).Some?
    ensures name in BaseMap(base) ==> Read(base, name) == Some(BaseMap(base)[name])
    decreases |base|
  {
    if base != [] {
      BaseMapReads(base[..|base| - 1], name);
    }
  }

  predicate Starred(pattern: string)
  {
    pattern != "" && pattern[|pattern| - 1] == '*'
  }

  // An allow entry names one variable, or a prefix when it ends in a star.
  predicate Matches(pattern: string, name: string)
  {
    pattern != "" && if Starred(pattern) then pattern[..|pattern| - 1] <= name else pattern == name
  }

  predicate Allowed(allow: seq<string>, name: string)
  {
    exists i :: 0 <= i < |allow| && Matches(allow[i], name)
  }

  function Matching(pattern: string, base: map<string, string>): set<string>
  {
    set n | n in base && Matches(pattern, n)
  }

  function Unseen(names: seq<string>, seen: seq<string>): (r: seq<string>)
    ensures forall n :: n in r <==> n in names && n !in seen
  {
    if names == [] then []
    else
      var k := |names| - 1;
      Unseen(names[..k], seen) + if names[k] in seen then [] else [names[k]]
  }

  // The inherited names in order: pattern by pattern, each pattern's in byte order, none twice.
  ghost function Inherited(allow: seq<string>, base: map<string, string>): seq<string>
  {
    if allow == [] then []
    else
      var k := |allow| - 1;
      var before := Inherited(allow[..k], base);
      before + Unseen(Names.Listed(Matching(allow[k], base)), before)
  }

  lemma {:induction false} UnseenNoRepeats(names: seq<string>, seen: seq<string>)
    requires Names.Distinct(names)
    ensures Names.Distinct(Unseen(names, seen))
    decreases |names|
  {
    if names != [] {
      var k := |names| - 1;
      UnseenNoRepeats(names[..k], seen);
      assert names[k] !in names[..k];
    }
  }

  lemma ListedNoRepeats(names: set<string>)
    ensures Names.Distinct(Names.Listed(names))
  {
    var listed := Names.Listed(names);
    forall i, j | 0 <= i < j < |listed| ensures listed[i] != listed[j] {
      Names.LessIrreflexive(listed[i]);
    }
  }

  lemma {:induction false} InheritedNoRepeats(allow: seq<string>, base: map<string, string>)
    ensures Names.Distinct(Inherited(allow, base))
    decreases |allow|
  {
    if allow != [] {
      var k := |allow| - 1;
      var before := Inherited(allow[..k], base);
      var listed := Names.Listed(Matching(allow[k], base));
      InheritedNoRepeats(allow[..k], base);
      ListedNoRepeats(Matching(allow[k], base));
      UnseenNoRepeats(listed, before);
      forall i, j | 0 <= i < |before| <= j < |Inherited(allow, base)|
        ensures Inherited(allow, base)[i] != Inherited(allow, base)[j]
      {
        assert Unseen(listed, before)[j - |before|] in Unseen(listed, before);
        assert before[i] in before;
      }
    }
  }

  lemma AllowedByLast(allow: seq<string>, name: string)
    requires allow != []
    ensures Allowed(allow, name) <==> Allowed(allow[..|allow| - 1], name) || Matches(allow[|allow| - 1], name)
  {
    var k := |allow| - 1;
    if Allowed(allow, name) && !Matches(allow[k], name) {
      var i :| 0 <= i < |allow| && Matches(allow[i], name);
      assert allow[..k][i] == allow[i];
    }
    if Allowed(allow[..k], name) {
      var i :| 0 <= i < k && Matches(allow[..k][i], name);
      assert Matches(allow[i], name);
    }
  }

  lemma {:induction false} InheritedIsAllowed(allow: seq<string>, base: map<string, string>, name: string)
    ensures name in Inherited(allow, base) <==> name in base && Allowed(allow, name)
    decreases |allow|
  {
    if allow != [] {
      var k := |allow| - 1;
      var listed := Names.Listed(Matching(allow[k], base));
      InheritedIsAllowed(allow[..k], base, name);
      AllowedByLast(allow, name);
      assert name in listed <==> name in Matching(allow[k], base);
    }
  }

  // ---------- the builder ----------

  predicate Acceptable(vars: map<string, string>)
  {
    forall n :: n in vars ==> Safe(n)
  }

  // The list a successful build returns, whatever order the maps are walked in.
  ghost function Environment(opts: Options): seq<string>
    requires Acceptable(opts.vars)
  {
    InheritedExists(opts.allow, BaseMap(opts.base));
    Entries(Inherited(opts.allow, BaseMap(opts.base)), BaseMap(opts.base))
    + Entries(Names.Listed(opts.vars.Keys), opts.vars)
  }

  lemma InheritedExists(allow: seq<string>, base: map<string, string>)
    ensures forall n :: n in Inherited(allow, base) ==> n in base
  {
    forall n | n in Inherited(allow, base) ensures n in base {
      InheritedIsAllowed(allow, base, n);
    }
  }

  // The meaning of the list: the caller's value if there is one, else for a safe and allowed
  // name what the parent would read, else nothing.
  lemma ReadEnvironment(opts: Options, name: string)
    requires Acceptable(opts.vars)
    ensures Read(Environment(opts), name) ==
            if name in opts.vars then Some(opts.vars[name])
            else if Safe(name) && Allowed(opts.allow, name) then Read(opts.base, name)
            else None
  {
    var base := BaseMap(opts.base);
    InheritedExists(opts.allow, base);
    var inherited := Inherited(opts.allow, base);
    ReadConcat(Entries(inherited, base), Entries(Names.Listed(opts.vars.Keys), opts.vars), name);
    ReadEntries(inherited, base, name);
    ReadEntries(Names.Listed(opts.vars.Keys), opts.vars, name);
    InheritedIsAllowed(opts.allow, base, name);
    BaseMapReads(opts.base, name);
  }

  // Every entry has a valid name that is not dangerous, and no inherited name comes twice.
  lemma EnvironmentIsSafe(opts: Options)
    requires Acceptable(opts.vars)
    ensures forall e :: e in Environment(opts) ==> NameOf(e).Some? && Safe(NameOf(e).value)
    ensures Names.Distinct(Inherited(opts.allow, BaseMap(opts.base)))
  {
    var base := BaseMap(opts.base);
    InheritedExists(opts.allow, base);
    var inherited, own := Inherited(opts.allow, base), Names.Listed(opts.vars.Keys);
    InheritedNoRepeats(opts.allow, base);
    forall e | e in Environment(opts) ensures NameOf(e).Some? && Safe(NameOf(e).value) {
      if e in Entries(inherited, base) {
        var i :| 0 <= i < |inherited| && Entries(inherited, base)[i] == e;
        EntryReads(inherited[i], base[inherited[i]]);
      } else {
        var i :| 0 <= i < |own| && Entries(own, opts.vars)[i] == e;
        EntryReads(own[i], opts.vars[own[i]]);
      }
    }
  }

  method Build(opts: Options) returns (r: Built)
    ensures r.Env? <==> Acceptable(opts.vars)
    ensures r.Env? ==> r.out == Environment(opts)
    ensures r.Invalid? ==> r.name in opts.vars && !ValidName(r.name)
    ensures r.Refused? ==> r.name in opts.vars && ValidName(r.name) && Dangerous(r.name)
  {
    var base := ReadBase(opts.base);
    var out := Inherit(opts.allow, base);
    var refusal := CheckNames(opts.vars.Keys);
    if refusal.Some? {
      return refusal.value;
    }
    out := AppendOwn(out, opts.vars);
    r := Env(out);
  }

  // The base list into a map; a later entry for a name replaces an earlier one.
  method ReadBase(pairs: seq<string>) returns (base: map<string, string>)
    ensures base == BaseMap(pairs)
  {
    base := map[];
    for i := 0 to |pairs|
      invariant base == BaseMap(pairs[..i])
    {
      assert pairs[..i + 1][..i] == pairs[..i];
      var name := NameOf(pairs[i]);
      if name == None || !ValidName(name.value) || Dangerous(name.value) {
        continue;
      }
      base := base[name.value := ValueOf(pairs[i])];
    }
    assert pairs[..|pairs|] == pairs;
  }

  method CheckNames(names: set<string>) returns (refusal: Option<Built>)
    ensures refusal == None <==> forall n :: n in names ==> Safe(n)
    ensures refusal.Some? ==> !refusal.value.Env? && refusal.value.name in names
    ensures refusal.Some? ==> if refusal.value.Invalid? then !ValidName(refusal.value.name)
                              else ValidName(refusal.value.name) && Dangerous(refusal.value.name)
  {
    var todo := names;
    while todo != {}
      invariant todo <= names && forall n :: n in names && n !in todo ==> Safe(n)
      decreases |todo|
    {
      var n :| n in todo;
      if !ValidName(n) {
        return Some(Invalid(n));
      }
      if Dangerous(n) {
        return Some(Refused(n));
      }
      todo := todo - {n};
    }
    refusal := None;
  }

  method AppendOwn(before: seq<string>, vars: map<string, string>) returns (out: seq<string>)
    ensures out == before + Entries(Names.Listed(vars.Keys), vars)
  {
    out := before;
    var own := Names.SortedNames(vars.Keys);
    for i := 0 to |own|
      invariant out == before + Entries(own[..i], vars)
    {
      assert own[..i + 1] == own[..i] + [own[i]];
      EntriesPush(own[..i], own[i], vars);
      out := out + [Entry(own[i], vars[own[i]])];
    }
    assert own[..|own|] == own;
  }

  lemma EntriesPush(names: seq<string>, name: string, values: map<string, string>)
    requires (forall n :: n in names ==> n in values) && name in values
    ensures Entries(names + [name], values) == Entries(names, values) + [Entry(name, values[name])]
  {
  }

  // The walk over the allow list.
  method Inherit(allow: seq<string>, base: map<string, string>) returns (out: seq<string>)
    ensures (forall n :: n in Inherited(allow, base) ==> n in base) && out == Entries(Inherited(allow, base), base)
  {
    out := [];
    var emitted: set<string> := {};
    InheritedExists(allow, base);
    for k := 0 to |allow|
      invariant forall n :: n in Inherited(allow[..k], base) ==> n in base
      invariant out == Entries(Inherited(allow[..k], base), base)
      invariant forall n :: n in emitted <==> n in Inherited(allow[..k], base)
    {
      assert allow[..k + 1][..k] == allow[..k];
      InheritedExists(allow[..k + 1], base);
      out, emitted := InheritOne(allow[k], base, out, emitted, Inherited(allow[..k], base));
    }
    assert allow[..|allow|] == allow;
  }

  // What one allow entry adds.
  method InheritOne(pattern: string, base: map<string, string>, out0: seq<string>, emitted0: set<string>,
                    ghost before: seq<string>)
    returns (out: seq<string>, emitted: set<string>)
    requires forall n :: n in before ==> n in base
    requires out0 == Entries(before, base) && forall n :: n in emitted0 <==> n in before
    ensures var after := before + Unseen(Names.Listed(Matching(pattern, base)), before);
            && (forall n :: n in after ==> n in base) && out == Entries(after, base)
            && forall n :: n in emitted <==> n in after
  {
    out, emitted := out0, emitted0;
    if pattern == "" {
      Names.ListsUnique(Names.Listed(Matching(pattern, base)), [], {});
      assert before + Unseen([], before) == before;
      return;
    }
    if Starred(pattern) {
      var names := Names.SortedNames(Matching(pattern, base));
      ListedNoRepeats(Matching(pattern, base));
      out, emitted := EmitNew(out, emitted, names, base, before);
      return;
    }
    OneListed(pattern, base, before);
    if pattern in base && pattern !in emitted {
      EntriesPush(before, pattern, base);
      out := out + [Entry(pattern, base[pattern])];
      emitted := emitted + {pattern};
    } else {
      assert before + [] == before;
    }
  }

  lemma OneListed(pattern: string, base: map<string, string>, before: seq<string>)
    requires pattern != "" && !Starred(pattern)
    ensures Unseen(Names.Listed(Matching(pattern, base)), before) ==
            if pattern in base && pattern !in before then [pattern] else []
  {
    var listed := if pattern in base then [pattern] else [];
    assert Names.Lists(listed, Matching(pattern, base));
    Names.ListsUnique(listed, Names.Listed(Matching(pattern, base)), Matching(pattern, base));
    if listed != [] {
      assert listed[..0] == [];
      assert Unseen([], before) == [];
    }
  }

  lemma UnseenPush(names: seq<string>, i: nat, before: seq<string>)
    requires i < |names|
    ensures Unseen(names[..i + 1], before) == Unseen(names[..i], before) + if names[i] in before then [] else [names[i]]
  {
    assert names[..i + 1][..i] == names[..i];
  }

  lemma UnseenStep(names: seq<string>, i: nat, base: map<string, string>, before: seq<string>)
    requires i < |names| && names[i] in base && Names.Distinct(names)
    requires forall n :: n in before + Unseen(names[..i], before) ==> n in base
    ensures var done, more := before + Unseen(names[..i], before), before + Unseen(names[..i + 1], before);
            && (forall n :: n in more <==> n in done || n == names[i])
            && Entries(more, base) ==
               Entries(done, base) + if names[i] in done then [] else [Entry(names[i], base[names[i]])]
  {
    var done := before + Unseen(names[..i], before);
    UnseenPush(names, i, before);
    assert names[i] !in names[..i];
    if names[i] in before {
      assert Unseen(names[..i + 1], before) == Unseen(names[..i], before);
    } else {
      EntriesPush(done, names[i], base);
      assert before + Unseen(names[..i + 1], before) == done + [names[i]];
    }
  }

  // Appends the entries of the names not emitted yet.
  method EmitNew(out0: seq<string>, emitted0: set<string>, names: seq<string>, base: map<string, string>,
                 ghost before: seq<string>)
    returns (out: seq<string>, emitted: set<string>)
    requires (forall n :: n in before ==> n in base) && (forall n :: n in names ==> n in base) && Names.Distinct(names)
    requires out0 == Entries(before, base) && forall n :: n in emitted0 <==> n in before
    ensures forall n :: n in Unseen(names, before) ==> n in base
    ensures out == Entries(before + Unseen(names, before), base)
    ensures forall n :: n in emitted <==> n in before + Unseen(names, before)
  {
    out, emitted := out0, emitted0;
    assert before + Unseen(names[..0], before) == before;
    for i := 0 to |names|
      invariant forall n :: n in before + Unseen(names[..i], before) ==> n in base
      invariant out == Entries(before + Unseen(names[..i], before), base)
      invariant forall n :: n in emitted <==> n in before + Unseen(names[..i], before)
    {
      UnseenStep(names, i, base, before);
      if names[i] !in emitted {
        out := out + [Entry(names[i], base[names[i]])];
        emitted := emitted + {names[i]};
      }
    }
    assert names[..|names|] == names;
  }
}
