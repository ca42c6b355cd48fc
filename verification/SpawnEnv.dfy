/**
  The environment of the agent runtime: automation variables, sandbox secrets and
  the layers after them, with the rule every process applies to it, that the last
  assignment of a name wins.
*/
module SpawnEnv {
  import opened Text
  import opened Sorting

  /** A "NAME=VALUE" entry. */
  function EntryOf(name: string, value: string): string {
    name + "=" + value
  }

  /** The name an entry assigns: what precedes its first "=". */
  function NameLength(entry: string): (n: nat)
    ensures n <= |entry|
  {
    if entry == "" || entry[0] == '=' then 0 else 1 + NameLength(entry[1..])
  }

  predicate Assigns(entry: string, name: string) {
    var n := NameLength(entry);
    n < |entry| && entry[..n] == name
  }

  function ValueOf(entry: string): string
    requires NameLength(entry) < |entry|
  {
    entry[NameLength(entry) + 1..]
  }

  /** What a process started with `env` reads for `name`. */
  function Lookup(env: seq<string>, name: string): Option<string> {
    if env == [] then None else
      var last := env[|env| - 1];
      if Assigns(last, name) then Some(ValueOf(last)) else Lookup(env[..|env| - 1], name)
  }

  lemma {:induction false} NameLengthOf(name: string, value: string)
    requires '=' !in name
    ensures NameLength(EntryOf(name, value)) == |name|
  {
    if name != "" {
      assert EntryOf(name, value)[1..] == EntryOf(name[1..], value);
      NameLengthOf(name[1..], value);
    }
  }

  /** An entry with a "="-free name reads back as its name and value. */
  lemma EntryReadsBack(name: string, value: string, other: string)
    requires '=' !in name
    ensures Assigns(EntryOf(name, value), other) <==> other == name
    ensures NameLength(EntryOf(name, value)) < |EntryOf(name, value)| && ValueOf(EntryOf(name, value)) == value
  {
    NameLengthOf(name, value);
    var e := EntryOf(name, value);
    assert e[..|name|] == name && e[|name| + 1..] == value;
  }

  lemma {:induction false} LookupConcat(a: seq<string>, b: seq<string>, name: string)
    ensures Lookup(a + b, name) == if Lookup(b, name).Some? then Lookup(b, name) else Lookup(a, name)
  {
    if b == [] {
      assert a + b == a;
    } else {
      assert (a + b)[..|a + b| - 1] == a + b[..|b| - 1];
      LookupConcat(a, b[..|b| - 1], name);
    }
  }

  // ------------------------------------------------------------------
  // One layer
  // ------------------------------------------------------------------

  function Entries(vars: map<string, string>, names: seq<string>): seq<string>
    requires forall n | n in names :: n in vars
  {
    seq(|names|, i requires 0 <= i < |names| => assert names[i] in names; EntryOf(names[i], vars[names[i]]))
  }

  /** The delivered variables whose name may be injected. */
  function Injectable(vars: map<string, string>, valid: string -> bool): map<string, string> {
    map n | n in vars && valid(n) :: vars[n]
  }

  /** The name-dropping loop: `order` is the order in which the map happens to be read. */
  method DropInvalid(
    vars: map<string, string>, valid: string -> bool, order: seq<string>) returns (kept: map<string, string>)
    requires forall n :: n in order <==> n in vars
    ensures kept == Injectable(vars, valid)
  {
    kept := vars;
    for i := 0 to |order|
      invariant kept.Keys <= vars.Keys
      invariant forall n | n in vars :: n in kept <==> valid(n) || n !in order[..i]
      invariant forall n | n in kept :: kept[n] == vars[n]
    {
      if !valid(order[i]) {
        kept := map n | n in kept && n != order[i] :: kept[n];
      }
    }
    assert order[..|order|] == order;
  }

  /** `automationEnvVarSpawnEnv` and `sandboxSecretSpawnEnv`, for any order in which the map is read. */
  method BuildLayer(vars: map<string, string>, order: seq<string>) returns (env: seq<string>)
    requires multiset(order) == multiset(vars.Keys)
    ensures forall n | n in SortStrings(order) :: n in vars
    ensures env == Entries(vars, SortStrings(order))
  {
    SortStringsSorts(order);
    var names := SortStrings(order);
    forall n | n in names
      ensures n in vars
    {
      assert n in multiset(names);
    }
    env := [];
    for i := 0 to |names|
      invariant env == Entries(vars, names)[..i]
    {
      assert names[i] in names;
      env := env + [EntryOf(names[i], vars[names[i]])];
    }
    assert Entries(vars, names)[..|names|] == Entries(vars, names);
  }

  /** The layer of a map: the same list whatever order the map is read in. */
  ghost predicate IsLayer(env: seq<string>, vars: map<string, string>) {
    exists order :: LayerFrom(env, vars, order)
  }

  ghost predicate LayerFrom(env: seq<string>, vars: map<string, string>, order: seq<string>) {
    && multiset(order) == multiset(vars.Keys)
    && (forall n | n in SortStrings(order) :: n in vars)
    && env == Entries(vars, SortStrings(order))
  }

  lemma LayerUnique(env: seq<string>, other: seq<string>, vars: map<string, string>)
    requires IsLayer(env, vars) && IsLayer(other, vars)
    ensures env == other
  {
    var a :| LayerFrom(env, vars, a);
    var b :| LayerFrom(other, vars, b);
    SortStringsSorts(a);
    SortStringsSorts(b);
    SortedUnique(SortStrings(a), SortStrings(b));
  }

  predicate NamesReadable(vars: map<string, string>) {
    forall n | n in vars :: '=' !in n
  }

  lemma {:induction false} LookupEntries(vars: map<string, string>, names: seq<string>, name: string)
    requires NamesReadable(vars) && forall n | n in names :: n in vars
    ensures Lookup(Entries(vars, names), name) == if name in names then Some(vars[name]) else None
  {
    if names != [] {
      var before, last := names[..|names| - 1], names[|names| - 1];
      LookupEntries(vars, before, name);
      assert names == before + [last];
      assert Entries(vars, names)[..|names| - 1] == Entries(vars, before);
      EntryReadsBack(last, vars[last], name);
    }
  }

  /** A layer of "="-free names reads back as exactly the map it was built from. */
  lemma LayerReadsBack(env: seq<string>, vars: map<string, string>, name: string)
    requires IsLayer(env, vars) && NamesReadable(vars)
    ensures Lookup(env, name) == if name in vars then Some(vars[name]) else None
  {
    var order :| LayerFrom(env, vars, order);
    SortStringsSorts(order);
    LookupEntries(vars, SortStrings(order), name);
    assert name in multiset(vars.Keys) <==> name in vars;
    assert name in multiset(SortStrings(order)) <==> name in SortStrings(order);
  }

  // ------------------------------------------------------------------
  // Layers together
  // ------------------------------------------------------------------

  /** `automationAndSandboxSecretEnv`: secrets are appended after the automation variables, so they win. */
  lemma SecretsWin(
    automation: map<string, string>, secrets: map<string, string>, first: seq<string>, second: seq<string>,
    name: string)
    requires IsLayer(first, automation) && IsLayer(second, secrets)
    requires NamesReadable(automation) && NamesReadable(secrets)
    ensures Lookup(first + second, name) ==
            if name in secrets then Some(secrets[name])
            else if name in automation then Some(automation[name])
            else None
  {
    LayerReadsBack(first, automation, name);
    LayerReadsBack(second, secrets, name);
    LookupConcat(first, second, name);
  }

  /** From delivery to process: names that cannot be injected are dropped before the layers are built. */
  method AutomationAndSandboxSecretEnv(
    automation: map<string, string>, secrets: map<string, string>,
    validAutomation: string -> bool, validSecret: string -> bool,
    automationOrder: seq<string>, secretOrder: seq<string>,
    keptAutomationOrder: seq<string>, keptSecretOrder: seq<string>)
    returns (env: seq<string>)
    requires forall n | validAutomation(n) || validSecret(n) :: '=' !in n
    requires forall n :: n in automationOrder <==> n in automation
    requires forall n :: n in secretOrder <==> n in secrets
    requires multiset(keptAutomationOrder) == multiset(Injectable(automation, validAutomation).Keys)
    requires multiset(keptSecretOrder) == multiset(Injectable(secrets, validSecret).Keys)
    ensures forall name :: Lookup(env, name) ==
              if name in secrets && validSecret(name) then Some(secrets[name])
              else if name in automation && validAutomation(name) then Some(automation[name])
              else None
  {
    var plain := DropInvalid(automation, validAutomation, automationOrder);
    var secret := DropInvalid(secrets, validSecret, secretOrder);
    var first := BuildLayer(plain, keptAutomationOrder);
    var second := BuildLayer(secret, keptSecretOrder);
    env := first + second;
    assert LayerFrom(first, plain, keptAutomationOrder);
    assert LayerFrom(second, secret, keptSecretOrder);
    forall name
      ensures Lookup(env, name) ==
              if name in secrets && validSecret(name) then Some(secrets[name])
              else if name in automation && validAutomation(name) then Some(automation[name])
              else None
    {
      SecretsWin(plain, secret, first, second, name);
    }
  }

  const HOME := "HOME"

  lemma HomeReadsBack(home: string)
    ensures Lookup([EntryOf(HOME, home)], HOME) == Some(home)
  {
    assert '=' !in HOME;
    EntryReadsBack(HOME, home, HOME);
    assert [EntryOf(HOME, home)][..0] == [];
  }

  /** The list `run` hands to the spawn ends with HOME, so nothing an earlier layer holds can move it. */
  lemma HomeAlwaysWins(layers: seq<string>, home: string)
    ensures Lookup(layers + ["HOME" + "=" + home], "HOME") == Some(home)
  {
    HomeReadsBack(home);
    LookupConcat(layers, [EntryOf(HOME, home)], HOME);
  }

  // ------------------------------------------------------------------
  // Provider credentials
  // ------------------------------------------------------------------

  /** A resolved credential: an API key, or one delivered by other means. */
  datatype AuthValue = AuthValue(kind: string, key: Option<string>)

  /** The value a credential puts into the environment, if it puts one there. */
  function ApiKey(value: AuthValue): Option<string> {
    if value.kind == "api" then value.key else None
  }

  /** `providercredential.EnvVarNames`: nothing for an unknown provider. */
  function EnvVarNames(provider: string): seq<string> {
    match provider
    case "google" => ["GOOGLE_API_KEY", "GOOGLE_GENERATIVE_AI_API_KEY", "GEMINI_API_KEY"]
    case "anthropic" => ["ANTHROPIC_API_KEY"]
    case "openai" => ["OPENAI_API_KEY"]
    case _ => []
  }

  /** The provider a variable belongs to. */
  function Owner(name: string): Option<string> {
    match name
    case "GOOGLE_API_KEY" => Some("google")
    case "GOOGLE_GENERATIVE_AI_API_KEY" => Some("google")
    case "GEMINI_API_KEY" => Some("google")
    case "ANTHROPIC_API_KEY" => Some("anthropic")
    case "OPENAI_API_KEY" => Some("openai")
    case _ => None
  }

  /** Every variable belongs to one provider, and can be written as an entry. */
  lemma OneOwner(provider: string, name: string)
    ensures name in EnvVarNames(provider) <==> Owner(name) == Some(provider)
    ensures name in EnvVarNames(provider) ==> '=' !in name
  {
  }

  function KeyEntries(names: seq<string>, key: string): seq<string> {
    seq(|names|, i requires 0 <= i < |names| => EntryOf(names[i], key))
  }

  function EntriesOf(provider: string, value: AuthValue): seq<string> {
    if ApiKey(value).Some? then KeyEntries(EnvVarNames(provider), ApiKey(value).value) else []
  }

  /** The lists of all names in the order given, one after the other. */
  function Chain(order: seq<string>, list: string -> seq<string>): seq<string> {
    if order == [] then [] else Chain(order[..|order| - 1], list) + list(order[|order| - 1])
  }

  function CredentialEntries(resolved: map<string, AuthValue>, order: seq<string>): seq<string>
    requires forall p | p in order :: p in resolved
  {
    Chain(order, p => if p in resolved then EntriesOf(p, resolved[p]) else [])
  }

  /** `providerCredentialSpawnEnv`, for any order in which the map is read. */
  method ProviderCredentialSpawnEnv(resolved: map<string, AuthValue>, order: seq<string>) returns (env: seq<string>)
    requires forall p :: p in order <==> p in resolved
    ensures env == CredentialEntries(resolved, order)
    ensures forall name :: Lookup(env, name) == CredentialFor(resolved, name)
  {
    env := [];
    for i := 0 to |order|
      invariant env == CredentialEntries(resolved, order[..i])
    {
      assert order[..i + 1][..i] == order[..i];
      var value := resolved[order[i]];
      if value.kind != "api" || value.key.None? {
        continue;
      }
      var more := EachName(EnvVarNames(order[i]), value.key.value);
      env := env + more;
    }
    assert order[..|order|] == order;
    forall name
      ensures Lookup(env, name) == CredentialFor(resolved, name)
    {
      CredentialsReadBack(resolved, order, name);
    }
  }

  method EachName(names: seq<string>, key: string) returns (env: seq<string>)
    ensures env == KeyEntries(names, key)
  {
    env := [];
    for j := 0 to |names|
      invariant env == KeyEntries(names[..j], key)
    {
      env := env + [EntryOf(names[j], key)];
    }
    assert names[..|names|] == names;
  }

  /** What the resolved credentials say about a variable, independent of any order. */
  function CredentialFor(resolved: map<string, AuthValue>, name: string): Option<string> {
    var owner := Owner(name);
    if owner.Some? && owner.value in resolved then ApiKey(resolved[owner.value]) else None
  }

  lemma {:induction false} LookupKeyEntries(names: seq<string>, key: string, name: string)
    requires forall n | n in names :: '=' !in n
    ensures Lookup(KeyEntries(names, key), name) == if name in names then Some(key) else None
  {
    if names != [] {
      var before, last := names[..|names| - 1], names[|names| - 1];
      LookupKeyEntries(before, key, name);
      assert names == before + [last];
      assert KeyEntries(names, key)[..|names| - 1] == KeyEntries(before, key);
      EntryReadsBack(last, key, name);
    }
  }

  lemma LookupEntriesOf(provider: string, value: AuthValue, name: string)
    ensures Lookup(EntriesOf(provider, value), name) == if Owner(name) == Some(provider) then ApiKey(value) else None
  {
    OneOwner(provider, name);
    if ApiKey(value).Some? {
      forall n | n in EnvVarNames(provider)
        ensures '=' !in n
      {
        OneOwner(provider, n);
      }
      LookupKeyEntries(EnvVarNames(provider), ApiKey(value).value, name);
    }
  }

  /** Where only its owner's list assigns a name, the order of the lists does not matter. */
  lemma {:induction false} LookupChain(
    order: seq<string>, list: string -> seq<string>, name: string, owner: Option<string>, value: Option<string>)
    requires forall p | p in order :: Lookup(list(p), name) == if owner == Some(p) then value else None
    ensures Lookup(Chain(order, list), name) == if owner.Some? && owner.value in order then value else None
  {
    if order != [] {
      var before, last := order[..|order| - 1], order[|order| - 1];
      assert order == before + [last];
      LookupChain(before, list, name, owner, value);
      LookupConcat(Chain(before, list), list(last), name);
    }
  }

  lemma CredentialsReadBack(resolved: map<string, AuthValue>, order: seq<string>, name: string)
    requires forall p :: p in order <==> p in resolved
    ensures Lookup(CredentialEntries(resolved, order), name) == CredentialFor(resolved, name)
  {
    var list := p => if p in resolved then EntriesOf(p, resolved[p]) else [];
    forall p | p in order
      ensures Lookup(list(p), name) == if Owner(name) == Some(p) then CredentialFor(resolved, name) else None
    {
      LookupEntriesOf(p, resolved[p], name);
    }
    LookupChain(order, list, name, Owner(name), CredentialFor(resolved, name));
  }

  /**
    `opencodeproc.Env` appends the provider credentials after the runtime list, and
    none of them assigns HOME: the process reads the runtime home, whatever it
    inherits, whatever the layers hold and whatever was resolved.
  */
  lemma HomeOfTheProcess(
    inherited: seq<string>, layers: seq<string>, home: string, resolved: map<string, AuthValue>, order: seq<string>)
    requires forall p :: p in order <==> p in resolved
    ensures Lookup(inherited + (layers + ["HOME" + "=" + home]) + CredentialEntries(resolved, order), "HOME") ==
            Some(home)
  {
    var runtime, credentials := layers + [EntryOf(HOME, home)], CredentialEntries(resolved, order);
    HomeAlwaysWins(layers, home);
    CredentialsReadBack(resolved, order, HOME);
    LookupConcat(inherited, runtime, HOME);
    LookupConcat(inherited + runtime, credentials, HOME);
  }

  /** And of every other variable it reads the credential first, then what the lists before it say. */
  lemma CredentialsComeLast(
    inherited: seq<string>, runtime: seq<string>, resolved: map<string, AuthValue>, order: seq<string>, name: string)
    requires forall p :: p in order <==> p in resolved
    ensures Lookup(inherited + runtime + CredentialEntries(resolved, order), name) ==
            if CredentialFor(resolved, name).Some? then CredentialFor(resolved, name)
            else Lookup(inherited + runtime, name)
  {
    CredentialsReadBack(resolved, order, name);
    LookupConcat(inherited + runtime, CredentialEntries(resolved, order), name);
  }

  /** A variable carries a value exactly when its owner's credential is an API key, and that key. */
  lemma OnlyApiKeysAreSet(resolved: map<string, AuthValue>, order: seq<string>, provider: string, name: string)
    requires (forall p :: p in order <==> p in resolved) && provider in resolved && name in EnvVarNames(provider)
    ensures resolved[provider].kind == "api" ==>
            Lookup(CredentialEntries(resolved, order), name) == resolved[provider].key
    ensures resolved[provider].kind != "api" ==> Lookup(CredentialEntries(resolved, order), name) == None
  {
    OneOwner(provider, name);
    CredentialsReadBack(resolved, order, name);
  }
}
