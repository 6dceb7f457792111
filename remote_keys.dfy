/**
 * The remote-key table builder.
 *
 * A JavaScript object is modelled as a `Table`: its own properties in
 * insertion order, name first. The builder starts from the module-level
 * default table, applies every configured override whose upper-cased name the
 * host's `RemoteKey` vocabulary defines, and then re-keys the result by the
 * vocabulary's numeric codes. The default table is not copied first, so the
 * overrides of one build stay in it for every later build.
 */
module RemoteKeys {
  import opened Wrappers

  type Entry = (string, string)
  type Table = seq<Entry>

  /** The host's `RemoteKey` vocabulary: button name to numeric code. */
  type Vocabulary = map<string, int>

  /**
   * A property of the output object: a code, or the property named "undefined"
   * that `output[RemoteKey[key]]` writes when `key` is not in the vocabulary.
   */
  datatype CodeKey = Code(code: int) | Undefined

  /** The builtin defaults, in declaration order. */
  const DEFAULTS: Table := [
    ("ARROW_UP", "KEY_UP"),
    ("ARROW_DOWN", "KEY_DOWN"),
    ("ARROW_LEFT", "KEY_LEFT"),
    ("ARROW_RIGHT", "KEY_RIGHT"),
    ("SELECT", "KEY_ENTER"),
    ("BACK", "KEY_RETURN"),
    ("PLAY_PAUSE", "KEY_PLAY_BACK"),
    ("INFORMATION", "KEY_INFO")
  ]

  // ---------------------------------------------------------------------------
  // Upper-casing (ASCII letters)

  predicate IsLower(c: char) { 'a' <= c <= 'z' }

  function UpperChar(c: char): char
  {
    if IsLower(c) then (c as int - 32) as char else c
  }

  function Upper(s: string): string
  {
    seq(|s|, i requires 0 <= i < |s| => UpperChar(s[i]))
  }

  /** Two characters that are equal, or the same ASCII letter in the two cases. */
  predicate CaseVariant(x: char, y: char)
  {
    x == y || (IsLower(x) && y as int == x as int - 32) || (IsLower(y) && x as int == y as int - 32)
  }

  /** Two names match case-insensitively exactly when they upper-case to the same name. */
  lemma UpperMatchesIgnoringCase(a: string, b: string)
    ensures Upper(a) == Upper(b) <==> |a| == |b| && forall i :: 0 <= i < |a| ==> CaseVariant(a[i], b[i])
  {
    if Upper(a) == Upper(b) {
      forall i | 0 <= i < |a|
        ensures CaseVariant(a[i], b[i])
      {
        assert Upper(a)[i] == Upper(b)[i];
      }
    }
    if |a| == |b| && forall i :: 0 <= i < |a| ==> CaseVariant(a[i], b[i]) {
      forall i | 0 <= i < |a|
        ensures Upper(a)[i] == Upper(b)[i]
      {
        assert CaseVariant(a[i], b[i]);
      }
    }
  }

  // ---------------------------------------------------------------------------
  // Tables

  function Keys(t: Table): set<string>
  {
    set e | e in t :: e.0
  }

  /** No property name occurs twice, as in any JavaScript object. */
  predicate Distinct(t: Table)
  {
    forall i, j :: 0 <= i < j < |t| ==> t[i].0 != t[j].0
  }

  /** Property read `t[name]`: `None` is `undefined`. */
  function Get(t: Table, name: string): Option<string>
  {
    if t == [] then None
    else if t[0].0 == name then Some(t[0].1)
    else Get(t[1..], name)
  }

  /** In a table without repeated names, reading a name gives that name's entry. */
  lemma {:induction false} GetAt(t: Table, i: nat)
    requires Distinct(t) && i < |t|
    ensures Get(t, t[i].0) == Some(t[i].1)
  {
    if i > 0 {
      assert t[0].0 != t[i].0;
      GetAt(t[1..], i - 1);
    }
  }

  /** Reading a name that is not a property gives `undefined`, and only then. */
  lemma {:induction false} GetAbsent(t: Table, name: string)
    ensures Get(t, name).None? <==> name !in Keys(t)
  {
    if t != [] {
      GetAbsent(t[1..], name);
      assert Keys(t) == {t[0].0} + Keys(t[1..]) by {
        assert forall e :: e in t <==> e == t[0] || e in t[1..];
      }
    }
  }

  /**
   * Property write `t[name] = token`: an existing property keeps its place and
   * takes the new value; a new one is appended.
   */
  function Put(t: Table, name: string, token: string): Table
  {
    if t == [] then [(name, token)]
    else if t[0].0 == name then [(name, token)] + t[1..]
    else [t[0]] + Put(t[1..], name, token)
  }

  lemma KeysCons(e: Entry, t: Table)
    ensures Keys([e] + t) == {e.0} + Keys(t)
  {
    assert forall x :: x in [e] + t <==> x == e || x in t;
  }

  /** After the write the name reads the new token and every other name reads what it read before. */
  lemma {:induction false} PutGet(t: Table, name: string, token: string, n: string)
    ensures Get(Put(t, name, token), n) == if n == name then Some(token) else Get(t, n)
  {
    if t != [] && t[0].0 != name {
      PutGet(t[1..], name, token, n);
    }
  }

  /**
   * The write adds exactly the written name; an existing name keeps its
   * position and a new one goes at the end.
   */
  lemma {:induction false} PutShape(t: Table, name: string, token: string)
    ensures Keys(Put(t, name, token)) == Keys(t) + {name}
    ensures name in Keys(t) ==>
              |Put(t, name, token)| == |t| && forall i :: 0 <= i < |t| ==> Put(t, name, token)[i].0 == t[i].0
    ensures name !in Keys(t) ==> Put(t, name, token) == t + [(name, token)]
  {
    if t == [] {
      assert Keys([(name, token)]) == {name} by { KeysCons((name, token), []); }
    } else {
      assert t == [t[0]] + t[1..];
      KeysCons(t[0], t[1..]);
      if t[0].0 == name {
        KeysCons((name, token), t[1..]);
      } else {
        PutShape(t[1..], name, token);
        KeysCons(t[0], Put(t[1..], name, token));
      }
    }
  }

  /** The write never creates a second property with the same name. */
  lemma {:induction false} PutDistinct(t: Table, name: string, token: string)
    requires Distinct(t)
    ensures Distinct(Put(t, name, token))
  {
    if t != [] && t[0].0 != name {
      var rest := Put(t[1..], name, token);
      var r := [t[0]] + rest;
      PutDistinct(t[1..], name, token);
      PutShape(t[1..], name, token);
      KeysCons(t[0], t[1..]);
      assert t[0].0 !in Keys(t[1..]);
      forall i, j | 0 <= i < j < |r|
        ensures r[i].0 != r[j].0
      {
        if i == 0 {
          assert r[j] == rest[j - 1] && r[j].0 in Keys(rest);
        } else {
          assert r[i] == rest[i - 1] && r[j] == rest[j - 1];
        }
      }
    }
  }

  // ---------------------------------------------------------------------------
  // The override merge

  /** One pass of the first loop: accept the entry when its upper-cased name is a vocabulary name. */
  function Override(t: Table, e: Entry, vocab: Vocabulary): Table
  {
    var key := Upper(e.0);
    if key in vocab then Put(t, key, e.1) else t
  }

  /** The table after applying the configured overrides in iteration order. */
  function Overridden(t: Table, config: seq<Entry>, vocab: Vocabulary): Table
    decreases |config|
  {
    if config == [] then t
    else Overridden(Override(t, config[0], vocab), config[1..], vocab)
  }

  /** Upper-cased config names the vocabulary defines. */
  function Accepted(config: seq<Entry>, vocab: Vocabulary): set<string>
  {
    set e | e in config && Upper(e.0) in vocab :: Upper(e.0)
  }

  /** The value of the last config entry that upper-cases to `name`, if any. */
  function LastOverride(config: seq<Entry>, name: string): Option<string>
  {
    if config == [] then None
    else if Upper(config[|config| - 1].0) == name then Some(config[|config| - 1].1)
    else LastOverride(config[..|config| - 1], name)
  }

  /**
   * Applying overrides in two batches is applying them all at once: a table
   * that has been through one build carries its accepted overrides into the next.
   */
  lemma {:induction false} OverriddenAppend(t: Table, c1: seq<Entry>, c2: seq<Entry>, vocab: Vocabulary)
    ensures Overridden(t, c1 + c2, vocab) == Overridden(Overridden(t, c1, vocab), c2, vocab)
    decreases |c1|
  {
    if c1 == [] {
      assert c1 + c2 == c2;
    } else {
      assert (c1 + c2)[0] == c1[0] && (c1 + c2)[1..] == c1[1..] + c2;
      OverriddenAppend(Override(t, c1[0], vocab), c1[1..], c2, vocab);
    }
  }

  /** The last entry of the configuration is applied last. */
  lemma OverriddenSnoc(t: Table, config: seq<Entry>, vocab: Vocabulary)
    requires config != []
    ensures Overridden(t, config, vocab)
         == Override(Overridden(t, config[..|config| - 1], vocab), config[|config| - 1], vocab)
  {
    var n := |config| - 1;
    assert config == config[..n] + [config[n]];
    OverriddenAppend(t, config[..n], [config[n]], vocab);
  }

  /**
   * What a name reads after the merge: the last override whose upper-cased name
   * it is, when the vocabulary defines it; otherwise what it read before. So
   * names match case-insensitively, unknown names are ignored, the last of
   * several matching entries wins and every other name keeps its value.
   */
  lemma {:induction false} OverriddenGet(t: Table, config: seq<Entry>, vocab: Vocabulary, name: string)
    ensures Get(Overridden(t, config, vocab), name)
         == if name in vocab && LastOverride(config, name).Some? then LastOverride(config, name) else Get(t, name)
  {
    if config != [] {
      var n := |config| - 1;
      OverriddenSnoc(t, config, vocab);
      OverriddenGet(t, config[..n], vocab, name);
      PutGet(Overridden(t, config[..n], vocab), Upper(config[n].0), config[n].1, name);
    }
  }

  /** The merge's names are the old names plus the accepted override names; nothing else is added. */
  lemma {:induction false} OverriddenKeys(t: Table, config: seq<Entry>, vocab: Vocabulary)
    ensures Keys(Overridden(t, config, vocab)) == Keys(t) + Accepted(config, vocab)
  {
    if config == [] {
      assert Accepted(config, vocab) == {};
    } else {
      var n := |config| - 1;
      OverriddenSnoc(t, config, vocab);
      OverriddenKeys(t, config[..n], vocab);
      PutShape(Overridden(t, config[..n], vocab), Upper(config[n].0), config[n].1);
      assert Accepted(config, vocab)
          == Accepted(config[..n], vocab) + (if Upper(config[n].0) in vocab then {Upper(config[n].0)} else {}) by {
        assert forall e :: e in config <==> e in config[..n] || e == config[n] by {
          assert config == config[..n] + [config[n]];
        }
      }
    }
  }

  /** The merge never creates a second property with the same name. */
  lemma {:induction false} OverriddenDistinct(t: Table, config: seq<Entry>, vocab: Vocabulary)
    requires Distinct(t)
    ensures Distinct(Overridden(t, config, vocab))
    decreases |config|
  {
    if config != [] {
      var key := Upper(config[0].0);
      if key in vocab {
        PutDistinct(t, key, config[0].1);
      }
      OverriddenDistinct(Override(t, config[0], vocab), config[1..], vocab);
    }
  }

  // ---------------------------------------------------------------------------
  // Re-keying by code

  /** The output property `RemoteKey[name]` is written for `name`. */
  function CodeOf(vocab: Vocabulary, name: string): CodeKey
  {
    if name in vocab then Code(vocab[name]) else Undefined
  }

  /** The output object after the second loop has written every entry of `t`, in order. */
  function ByCode(t: Table, vocab: Vocabulary): map<CodeKey, string>
  {
    if t == [] then map[]
    else ByCode(t[..|t| - 1], vocab)[CodeOf(vocab, t[|t| - 1].0) := t[|t| - 1].1]
  }

  predicate Injective(vocab: Vocabulary)
  {
    forall a, b :: a in vocab && b in vocab && a != b ==> vocab[a] != vocab[b]
  }

  /** The output's properties are exactly the codes of the table's names. */
  lemma {:induction false} ByCodeKeys(t: Table, vocab: Vocabulary)
    ensures ByCode(t, vocab).Keys == set n | n in Keys(t) :: CodeOf(vocab, n)
  {
    if t != [] {
      var n := |t| - 1;
      ByCodeKeys(t[..n], vocab);
      assert forall e :: e in t <==> e in t[..n] || e == t[n] by {
        assert t == t[..n] + [t[n]];
      }
    }
  }

  /**
   * With an injective vocabulary and no repeated names, every vocabulary name
   * of the table is found under its own code with its own token.
   */
  lemma {:induction false} ByCodeAt(t: Table, vocab: Vocabulary, i: nat)
    requires Distinct(t) && Injective(vocab)
    requires i < |t| && t[i].0 in vocab
    ensures Code(vocab[t[i].0]) in ByCode(t, vocab)
    ensures ByCode(t, vocab)[Code(vocab[t[i].0])] == t[i].1
  {
    var n := |t| - 1;
    if i < n {
      assert t[n].0 != t[i].0;
      assert CodeOf(vocab, t[n].0) != Code(vocab[t[i].0]);
      ByCodeAt(t[..n], vocab, i);
    }
  }

  /**
   * The second loop: write `output[RemoteKey[key]] = keys[key]` for every
   * property of the table, in order, into a fresh object.
   */
  method Rekey(keys: Table, vocab: Vocabulary) returns (output: map<CodeKey, string>)
    ensures output == ByCode(keys, vocab)
  {
    output := map[];
    for i := 0 to |keys|
      invariant output == ByCode(keys[..i], vocab)
    {
      assert keys[..i + 1][..i] == keys[..i];
      output := output[CodeOf(vocab, keys[i].0) := keys[i].1];
    }
    assert keys[..|keys|] == keys;
  }

  /**
   * The module-level `DEFAULTS` object. The builder writes accepted overrides
   * straight into it, so it is state shared by every build.
   */
  class KeyDefaults {
    var table: Table

    ghost predicate Valid()
      reads this
    {
      Distinct(table)
    }

    constructor ()
      ensures table == DEFAULTS && Valid()
    {
      table := DEFAULTS;
    }

    /** Build the key table for one television from its configured overrides. */
    method Build(config: seq<Entry>, vocab: Vocabulary) returns (output: map<CodeKey, string>)
      requires Valid()
      modifies this
      ensures Valid()
      ensures table == Overridden(old(table), config, vocab)
      ensures output == ByCode(table, vocab)
    {
      for i := 0 to |config|
        invariant Overridden(table, config[i..], vocab) == Overridden(old(table), config, vocab)
        invariant Distinct(table)
      {
        var key := Upper(config[i].0);
        var value := config[i].1;
        assert config[i..][0] == config[i] && config[i..][1..] == config[i + 1..];
        if key in vocab {
          PutDistinct(table, key, value);
          table := Put(table, key, value);
        }
      }
      assert config[|config|..] == [];
      output := Rekey(table, vocab);
    }
  }

  // ---------------------------------------------------------------------------
  // What a build produces

  lemma DefaultsDistinct()
    ensures Distinct(DEFAULTS)
  {
  }

  /**
   * With no configured overrides, and a vocabulary that gives the eight
   * default names distinct codes, the output maps exactly those codes, each to
   * its default token.
   */
  lemma DefaultsOnly(vocab: Vocabulary)
    requires Injective(vocab) && Keys(DEFAULTS) <= vocab.Keys
    ensures ByCode(Overridden(DEFAULTS, [], vocab), vocab).Keys == set n | n in Keys(DEFAULTS) :: Code(vocab[n])
    ensures forall i :: 0 <= i < |DEFAULTS| ==>
              ByCode(Overridden(DEFAULTS, [], vocab), vocab)[Code(vocab[DEFAULTS[i].0])] == DEFAULTS[i].1
  {
    var out := ByCode(DEFAULTS, vocab);
    ByCodeKeys(DEFAULTS, vocab);
    assert (set n | n in Keys(DEFAULTS) :: CodeOf(vocab, n)) == set n | n in Keys(DEFAULTS) :: Code(vocab[n]);
    forall i | 0 <= i < |DEFAULTS|
      ensures out[Code(vocab[DEFAULTS[i].0])] == DEFAULTS[i].1
    {
      ByCodeAt(DEFAULTS, vocab, i);
    }
  }

  /**
   * A button the vocabulary defines reads, in the output, the value of the
   * table after the merge under that button's code.
   */
  lemma BuiltReads(t: Table, config: seq<Entry>, vocab: Vocabulary, name: string)
    requires Distinct(t) && Injective(vocab) && name in vocab
    ensures var keys := Overridden(t, config, vocab);
            var out := ByCode(keys, vocab);
            (Code(vocab[name]) in out <==> name in Keys(keys)) &&
            (name in Keys(keys) ==> Some(out[Code(vocab[name])]) == Get(keys, name))
  {
    var keys := Overridden(t, config, vocab);
    var out := ByCode(keys, vocab);
    OverriddenDistinct(t, config, vocab);
    ByCodeKeys(keys, vocab);
    if name in Keys(keys) {
      var e :| e in keys && e.0 == name;
      var i :| 0 <= i < |keys| && keys[i] == e;
      ByCodeAt(keys, vocab, i);
      GetAt(keys, i);
    }
  }

  /**
   * The defaults are shared: an override accepted by one build is still in
   * effect in a later build whose configuration does not mention that name.
   */
  lemma OverridePersists(c1: seq<Entry>, c2: seq<Entry>, vocab: Vocabulary, name: string, token: string)
    requires Injective(vocab) && name in vocab
    requires LastOverride(c1, name) == Some(token) && LastOverride(c2, name) == None
    ensures var second := ByCode(Overridden(Overridden(DEFAULTS, c1, vocab), c2, vocab), vocab);
            Code(vocab[name]) in second && second[Code(vocab[name])] == token
  {
    var first := Overridden(DEFAULTS, c1, vocab);
    var keys := Overridden(first, c2, vocab);
    OverriddenGet(DEFAULTS, c1, vocab, name);
    OverriddenGet(first, c2, vocab, name);
    assert Get(keys, name) == Some(token);
    GetAbsent(keys, name);
    DefaultsDistinct();
    OverriddenDistinct(DEFAULTS, c1, vocab);
    BuiltReads(first, c2, vocab, name);
  }

  /**
   * The configuration `{ keys: { select: "KEY_CONFIRM" } }` over the defaults:
   * SELECT is sent as KEY_CONFIRM and ARROW_UP keeps its default KEY_UP.
   */
  lemma SelectOverride(vocab: Vocabulary)
    requires Injective(vocab) && "SELECT" in vocab && "ARROW_UP" in vocab
    ensures var out := ByCode(Overridden(DEFAULTS, [("select", "KEY_CONFIRM")], vocab), vocab);
            && Code(vocab["SELECT"]) in out && out[Code(vocab["SELECT"])] == "KEY_CONFIRM"
            && Code(vocab["ARROW_UP"]) in out && out[Code(vocab["ARROW_UP"])] == "KEY_UP"
  {
    var config := [("select", "KEY_CONFIRM")];
    var keys := Overridden(DEFAULTS, config, vocab);
    assert Upper("select") == "SELECT";
    assert LastOverride(config, "SELECT") == Some("KEY_CONFIRM");
    assert LastOverride(config, "ARROW_UP") == None by {
      assert config[..0] == [];
    }
    OverriddenGet(DEFAULTS, config, vocab, "SELECT");
    OverriddenGet(DEFAULTS, config, vocab, "ARROW_UP");
    GetAbsent(keys, "SELECT");
    GetAbsent(keys, "ARROW_UP");
    DefaultsDistinct();
    BuiltReads(DEFAULTS, config, vocab, "SELECT");
    BuiltReads(DEFAULTS, config, vocab, "ARROW_UP");
  }
}
