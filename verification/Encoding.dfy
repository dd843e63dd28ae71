/** The length-prefixed encoding fed to the hash (internal/evidence/digest.go) and the behaviour key of
    a target (internal/evidence/key.go).  A string is its bytes, one character each. */
module Encoding {
  import opened Wrappers
  import opened Ordering

  // ---- fields

  const LIMIT: int := 0x1_0000_0000

  /** The big-endian length: the low 32 bits of it. */
  function Prefix(n: nat): (p: string)
    ensures |p| == 4
  {
    [(n / 0x1000000 % 256) as char, (n / 0x10000 % 256) as char, (n / 0x100 % 256) as char, (n % 256) as char]
  }

  function Length(p: string): nat
    requires |p| == 4
  {
    (p[0] as int) * 0x1000000 + (p[1] as int) * 0x10000 + (p[2] as int) * 0x100 + (p[3] as int)
  }

  lemma PrefixLength(n: nat)
    requires n < LIMIT
    ensures Length(Prefix(n)) == n
  {
    var a, b, c := n / 0x1000000, n / 0x10000, n / 0x100;
    assert a < 256 && a % 256 == a;
    assert b == a * 256 + b % 256;
    assert c == b * 256 + c % 256;
    assert n == c * 256 + n % 256;
  }

  function Encoded(fields: seq<string>): string
  {
    if fields == [] then "" else Prefix(|fields[0]|) + fields[0] + Encoded(fields[1..])
  }

  lemma {:induction false} EncodedAppend(a: seq<string>, b: seq<string>)
    ensures Encoded(a + b) == Encoded(a) + Encoded(b)
  {
    hide Prefix;
    if a == [] {
      assert [] + b == b;
    } else {
      EncodedAppend(a[1..], b);
      assert (a + b)[1..] == a[1..] + b && (a + b)[0] == a[0];
      var head := Prefix(|a[0]|) + a[0];
      assert head + (Encoded(a[1..]) + Encoded(b)) == (head + Encoded(a[1..])) + Encoded(b);
    }
  }

  function Decoded(bytes: string): Option<seq<string>>
    decreases |bytes|
  {
    if bytes == "" then Some([])
    else if |bytes| < 4 then None
    else
      var n := Length(bytes[..4]);
      if |bytes| < 4 + n then None
      else
        var rest := Decoded(bytes[4 + n..]);
        if rest.None? then None else Some([bytes[4..4 + n]] + rest.value)
  }

  ghost predicate Short(fields: seq<string>)
  {
    forall i :: 0 <= i < |fields| ==> |fields[i]| < LIMIT
  }

  /** The fields can be read back from the bytes. */
  lemma {:induction false} FieldsRoundTrip(fields: seq<string>)
    requires Short(fields)
    ensures Decoded(Encoded(fields)) == Some(fields)
  {
    if fields != [] {
      var f, rest := fields[0], Encoded(fields[1..]);
      var bytes := Encoded(fields);
      PrefixLength(|f|);
      assert bytes[..4] == Prefix(|f|);
      assert bytes[4..4 + |f|] == f && bytes[4 + |f|..] == rest;
      FieldsRoundTrip(fields[1..]);
      assert fields == [f] + fields[1..];
    }
  }

  // ---- decimal numbers

  function Digit(d: int): char
    requires 0 <= d < 10
  {
    (('0' as int) + d) as char
  }

  function FormatNat(n: nat): (s: string)
    ensures s != "" && s[0] != '-'
  {
    if n < 10 then [Digit(n)] else FormatNat(n / 10) + [Digit(n % 10)]
  }

  function Format(n: int): string
  {
    if n < 0 then "-" + FormatNat(-n) else FormatNat(n)
  }

  function ParseNat(s: string): int
  {
    if s == "" then 0 else ParseNat(s[..|s| - 1]) * 10 + (s[|s| - 1] as int - '0' as int)
  }

  function Parse(s: string): int
  {
    if s != "" && s[0] == '-' then -ParseNat(s[1..]) else ParseNat(s)
  }

  lemma {:induction false} NatRoundTrip(n: nat)
    ensures ParseNat(FormatNat(n)) == n
  {
    var s := FormatNat(n);
    if n < 10 {
      assert s[..|s| - 1] == "";
    } else {
      NatRoundTrip(n / 10);
      assert s[..|s| - 1] == FormatNat(n / 10);
    }
  }

  lemma NumberRoundTrip(n: int)
    ensures Parse(Format(n)) == n
  {
    if n < 0 {
      NatRoundTrip(-n);
      assert Format(n)[1..] == FormatNat(-n);
    } else {
      NatRoundTrip(n);
    }
  }

  // ---- sorted keys

  lemma SortedTextsAgree(a: seq<string>, b: seq<string>)
    requires multiset(a) == multiset(b)
    ensures Sort(a, TextLe) == Sort(b, TextLe)
  {
    TextLeIsTotalPreorder();
    SortSorted(a, TextLe);
    SortSorted(b, TextLe);
    SortPermutes(a, TextLe);
    SortPermutes(b, TextLe);
    TextsAntisymmetric(Sort(a, TextLe));
    SortedUnique(Sort(a, TextLe), Sort(b, TextLe), TextLe);
  }

  /** The members of the set, in order. */
  ghost function Ordered(s: set<string>): (keys: seq<string>)
    ensures Lists(keys, s, TextLe)
  {
    TextLeIsTotalPreorder();
    Arranged(s, TextLe)
  }

  function PairsOf(keys: seq<string>, m: map<string, string>): (fields: seq<string>)
    requires forall k :: k in keys ==> k in m
  {
    if keys == [] then [] else [keys[0], m[keys[0]]] + PairsOf(keys[1..], m)
  }

  // ---- the inputs of a behaviour key

  datatype Inputs = Inputs(files: map<string, string>, dependencies: map<string, string>, toolchain: string,
                           platform: string, environment: seq<string>, contract: string, testArgs: Option<seq<string>>,
                           buildTags: Option<seq<string>>, commandTimeout: int, targetTimeout: int, goatest: string,
                           goatestBuild: string, goMutants: string, corpus: map<string, string>)

  ghost function MapFields(m: map<string, string>): seq<string>
  {
    PairsOf(Ordered(m.Keys), m)
  }

  function ListFields(domain: string, l: Option<seq<string>>): seq<string>
  {
    if l.None? then [domain, "absent"] else [domain, "present", Format(|l.value|)] + l.value
  }

  ghost function Fields(i: Inputs): seq<string>
  {
    ["goatest-mutation-evidence-key-v3", "files"] + (MapFields(i.files) + (["dependencies"] + DependencyFields(i)))
  }

  ghost function DependencyFields(i: Inputs): seq<string>
  {
    MapFields(i.dependencies) + (["toolchain", i.toolchain, "platform", i.platform, "environment"] + EnvironmentFields(i))
  }

  ghost function EnvironmentFields(i: Inputs): seq<string>
  {
    Sort(i.environment, TextLe) + (["contract", i.contract] + ListsFields(i))
  }

  ghost function ListsFields(i: Inputs): seq<string>
  {
    ListFields("test-args", i.testArgs) + (ListFields("build-tags", i.buildTags) + ScalarFields(i))
  }

  ghost function ScalarFields(i: Inputs): seq<string>
  {
    ["command-timeout", Format(i.commandTimeout), "target-timeout", Format(i.targetTimeout), "goatest", i.goatest,
     "goatest-build", i.goatestBuild, "go-mutants", i.goMutants, "corpus"] + MapFields(i.corpus)
  }

  // ---- the writer

  class Hasher {
    var fed: string

    constructor ()
      ensures fed == ""
    {
      fed := "";
    }

    method Write(fields: seq<string>)
      modifies this
      ensures fed == old(fed) + Encoded(fields)
    {
      for i := 0 to |fields|
        invariant fed == old(fed) + Encoded(fields[..i])
      {
        EncodedAppend(fields[..i], [fields[i]]);
        assert fields[..i + 1] == fields[..i] + [fields[i]];
        assert [fields[i]][1..] == [];
        assert Encoded([fields[i]]) == Prefix(|fields[i]|) + fields[i];
        fed := fed + Prefix(|fields[i]|);
        fed := fed + fields[i];
      }
      assert fields[..|fields|] == fields;
    }

    method WriteMap(domain: string, m: map<string, string>)
      modifies this
      ensures fed == old(fed) + Encoded([domain] + MapFields(m))
    {
      hide Encoded, PairsOf, Lists;
      Write([domain]);
      var keys := SortedKeys(m);
      assert forall k :: k in keys ==> k in m by {
        ListedAreKeys(keys, m);
      }
      ghost var start := fed;
      NoPairs(m);
      for i := 0 to |keys|
        invariant fed == start + Encoded(PairsOf(keys[..i], m))
      {
        Write([keys[i], m[keys[i]]]);
        PairsStep(keys, i, m);
      }
      assert keys[..|keys|] == keys;
      EncodedAppend([domain], MapFields(m));
    }

    method WriteList(domain: string, l: Option<seq<string>>)
      modifies this
      ensures fed == old(fed) + Encoded(ListFields(domain, l))
    {
      hide Format, Encoded;
      if l.None? {
        Write([domain]);
        Write(["absent"]);
        EncodedAppend([domain], ["absent"]);
        assert [domain] + ["absent"] == ListFields(domain, l);
        return;
      }
      ghost var head := ["present", Format(|l.value|)];
      Write([domain]);
      Write(["present", Format(|l.value|)]);
      Write(l.value);
      EncodedAppend(head, l.value);
      EncodedAppend([domain], head + l.value);
      assert [domain] + (head + l.value) == ListFields(domain, l);
    }
  }

  lemma ListedAreKeys(keys: seq<string>, m: map<string, string>)
    requires keys == Ordered(m.Keys)
    ensures forall k :: k in keys ==> k in m
  {
  }

  lemma NoPairs(m: map<string, string>)
    ensures Encoded(PairsOf([], m)) == ""
  {
  }

  lemma PairsStep(keys: seq<string>, i: nat, m: map<string, string>)
    requires i < |keys| && forall k :: k in keys ==> k in m
    ensures Encoded(PairsOf(keys[..i + 1], m)) == Encoded(PairsOf(keys[..i], m)) + Encoded([keys[i], m[keys[i]]])
  {
    PairsAppend(keys[..i], keys[i], m);
    assert keys[..i + 1] == keys[..i] + [keys[i]];
    EncodedAppend(PairsOf(keys[..i], m), [keys[i], m[keys[i]]]);
  }

  method SortedKeys(m: map<string, string>) returns (keys: seq<string>)
    ensures keys == Ordered(m.Keys)
  {
    keys := Enumerate(m.Keys);
    TextLeIsTotalPreorder();
    SortedLists(keys, m.Keys, TextLe);
    keys := Sort(keys, TextLe);
    ListedTexts(keys, Ordered(m.Keys), m.Keys);
  }

  lemma ListedTexts(a: seq<string>, b: seq<string>, s: set<string>)
    requires Lists(a, s, TextLe) && Lists(b, s, TextLe)
    ensures a == b
  {
    TextLeIsTotalPreorder();
    TextsAntisymmetric(a);
    ListedOnce(a, b, s, TextLe);
  }

  lemma {:induction false} PairsAppend(keys: seq<string>, key: string, m: map<string, string>)
    requires key in m && forall k :: k in keys ==> k in m
    ensures PairsOf(keys + [key], m) == PairsOf(keys, m) + [key, m[key]]
  {
    if keys == [] {
      assert ([] + [key])[1..] == [];
    } else {
      PairsAppend(keys[1..], key, m);
      assert (keys + [key])[1..] == keys[1..] + [key];
    }
  }

  /** Feed a hasher the inputs; the key is the digest of what was fed. */
  method TargetBehaviorKey(i: Inputs, digest: string -> string) returns (key: string)
    ensures key == digest(Encoded(Fields(i)))
  {
    hide Encoded, MapFields, ListFields, Format;
    var h := new Hasher();
    h.Write(["goatest-mutation-evidence-key-v3"]);
    assert h.fed == Encoded(["goatest-mutation-evidence-key-v3"]);
    h.WriteMap("files", i.files);
    h.WriteMap("dependencies", i.dependencies);
    HeadEncoded(i);
    FeedMiddle(h, i);
    FeedScalars(h, i);
    key := digest(h.fed);
  }

  /** The settings between the dependencies and the timeouts. */
  method FeedMiddle(h: Hasher, i: Inputs)
    modifies h
    ensures h.fed + Encoded(ScalarFields(i)) == old(h.fed) +
      Encoded(["toolchain", i.toolchain, "platform", i.platform, "environment"] + EnvironmentFields(i))
  {
    hide Encoded, ListFields, ScalarFields;
    h.Write(["toolchain", i.toolchain]);
    h.Write(["platform", i.platform]);
    h.Write(["environment"]);
    var entries := Sort(i.environment, TextLe);
    ghost var start := h.fed;
    assert Encoded(entries[..0]) == "" by {
      NothingEncoded();
    }
    for k := 0 to |entries|
      invariant h.fed == start + Encoded(entries[..k])
    {
      h.Write([entries[k]]);
      EncodedAppend(entries[..k], [entries[k]]);
      assert entries[..k + 1] == entries[..k] + [entries[k]];
    }
    assert entries[..|entries|] == entries;
    h.Write(["contract", i.contract]);
    h.WriteList("test-args", i.testArgs);
    h.WriteList("build-tags", i.buildTags);
    MiddleEncoded(i);
  }

  method FeedScalars(h: Hasher, i: Inputs)
    modifies h
    ensures h.fed == old(h.fed) + Encoded(ScalarFields(i))
  {
    hide Encoded, Format, MapFields;
    h.Write(["command-timeout", Format(i.commandTimeout)]);
    h.Write(["target-timeout", Format(i.targetTimeout)]);
    h.Write(["goatest", i.goatest]);
    h.Write(["goatest-build", i.goatestBuild]);
    h.Write(["go-mutants", i.goMutants]);
    h.WriteMap("corpus", i.corpus);
    ScalarsEncoded(i);
  }

  lemma NothingEncoded()
    ensures Encoded([]) == ""
  {
  }

  lemma HeadEncoded(i: Inputs)
    ensures Encoded(Fields(i)) ==
      Encoded(["goatest-mutation-evidence-key-v3"]) + Encoded(["files"] + MapFields(i.files)) +
      Encoded(["dependencies"] + MapFields(i.dependencies)) +
      Encoded(["toolchain", i.toolchain, "platform", i.platform, "environment"] + EnvironmentFields(i))
  {
    hide Encoded, MapFields, EnvironmentFields;
    var f, d := ["files"] + MapFields(i.files), ["dependencies"] + MapFields(i.dependencies);
    var rest := ["toolchain", i.toolchain, "platform", i.platform, "environment"] + EnvironmentFields(i);
    var m := ["goatest-mutation-evidence-key-v3"];
    EncodedAppend(d, rest);
    EncodedAppend(f, d + rest);
    EncodedAppend(m, f + (d + rest));
    assert Fields(i) == m + (f + (d + rest));
  }

  lemma MiddleEncoded(i: Inputs)
    ensures Encoded(["toolchain", i.toolchain, "platform", i.platform, "environment"] + EnvironmentFields(i)) ==
      Encoded(["toolchain", i.toolchain]) + Encoded(["platform", i.platform]) + Encoded(["environment"]) +
      Encoded(Sort(i.environment, TextLe)) + Encoded(["contract", i.contract]) +
      Encoded(ListFields("test-args", i.testArgs)) + Encoded(ListFields("build-tags", i.buildTags)) + Encoded(ScalarFields(i))
  {
    hide Encoded, ListFields, ScalarFields;
    var t, p, e := ["toolchain", i.toolchain], ["platform", i.platform], ["environment"];
    var entries, c := Sort(i.environment, TextLe), ["contract", i.contract];
    var a, b, s := ListFields("test-args", i.testArgs), ListFields("build-tags", i.buildTags), ScalarFields(i);
    EncodedAppend(b, s);
    EncodedAppend(a, b + s);
    EncodedAppend(c, a + (b + s));
    EncodedAppend(entries, c + (a + (b + s)));
    EncodedAppend(e, entries + (c + (a + (b + s))));
    EncodedAppend(p, e + (entries + (c + (a + (b + s)))));
    EncodedAppend(t, p + (e + (entries + (c + (a + (b + s))))));
    assert ["toolchain", i.toolchain, "platform", i.platform, "environment"] + EnvironmentFields(i) ==
           t + (p + (e + (entries + (c + (a + (b + s))))));
  }

  lemma ScalarsEncoded(i: Inputs)
    ensures Encoded(ScalarFields(i)) ==
      Encoded(["command-timeout", Format(i.commandTimeout)]) + Encoded(["target-timeout", Format(i.targetTimeout)]) +
      Encoded(["goatest", i.goatest]) + Encoded(["goatest-build", i.goatestBuild]) + Encoded(["go-mutants", i.goMutants]) +
      Encoded(["corpus"] + MapFields(i.corpus))
  {
    hide Encoded, Format, MapFields;
    var c, t := ["command-timeout", Format(i.commandTimeout)], ["target-timeout", Format(i.targetTimeout)];
    var g, b, m := ["goatest", i.goatest], ["goatest-build", i.goatestBuild], ["go-mutants", i.goMutants];
    var corpus := ["corpus"] + MapFields(i.corpus);
    EncodedAppend(m, corpus);
    EncodedAppend(b, m + corpus);
    EncodedAppend(g, b + (m + corpus));
    EncodedAppend(t, g + (b + (m + corpus)));
    EncodedAppend(c, t + (g + (b + (m + corpus))));
    assert ScalarFields(i) == c + (t + (g + (b + (m + corpus))));
  }

  // ---- the reader

  /** After the word that heads the dependencies come pairs and then the word that heads the toolchain;
      after a file of that name comes its value, and the heading word still lies ahead among the names. */
  predicate Opens(rest: seq<string>)
  {
    if rest == [] then false
    else if rest[0] == "toolchain" then true
    else if |rest| < 2 || rest[1] == "dependencies" then false
    else Opens(rest[2..])
  }

  /** Read the files, up to the heading of the dependencies. */
  function FilePairs(fields: seq<string>): Option<(map<string, string>, seq<string>)>
  {
    if fields == [] then None
    else if fields[0] == "dependencies" && Opens(fields[1..]) then Some((map[], fields[1..]))
    else if |fields| < 2 then None
    else
      var rest := FilePairs(fields[2..]);
      if rest.None? then None else Some((rest.value.0[fields[0] := fields[1]], rest.value.1))
  }

  /** Read the dependencies, up to the heading of the toolchain, which the platform follows. */
  function ModulePairs(fields: seq<string>): Option<(map<string, string>, seq<string>)>
  {
    if fields == [] then None
    else if fields[0] == "toolchain" && |fields| > 2 && fields[2] == "platform" then Some((map[], fields[1..]))
    else if |fields| < 2 then None
    else
      var rest := ModulePairs(fields[2..]);
      if rest.None? then None else Some((rest.value.0[fields[0] := fields[1]], rest.value.1))
  }

  function PairsToEnd(fields: seq<string>): Option<map<string, string>>
  {
    if fields == [] then Some(map[])
    else if |fields| < 2 then None
    else
      var rest := PairsToEnd(fields[2..]);
      if rest.None? then None else Some(rest.value[fields[0] := fields[1]])
  }

  function EntriesUntil(fields: seq<string>, stop: string): Option<(seq<string>, seq<string>)>
  {
    if fields == [] then None
    else if fields[0] == stop then Some(([], fields[1..]))
    else
      var rest := EntriesUntil(fields[1..], stop);
      if rest.None? then None else Some(([fields[0]] + rest.value.0, rest.value.1))
  }

  function ReadList(fields: seq<string>): Option<(Option<seq<string>>, seq<string>)>
  {
    if |fields| >= 2 && fields[1] == "absent" then Some((None, fields[2..]))
    else if |fields| < 3 then None
    else
      var n := Parse(fields[2]);
      if n < 0 || |fields| < 3 + n then None else Some((Some(fields[3..3 + n]), fields[3 + n..]))
  }

  function ReadScalars(i: Inputs, fields: seq<string>): Option<Inputs>
  {
    if |fields| < 11 then None else
      var corpus := PairsToEnd(fields[11..]);
      if corpus.None? then None else
        Some(i.(commandTimeout := Parse(fields[1]), targetTimeout := Parse(fields[3]), goatest := fields[5],
                goatestBuild := fields[7], goMutants := fields[9], corpus := corpus.value))
  }

  function ReadLists(i: Inputs, fields: seq<string>): Option<Inputs>
  {
    var args := ReadList(fields);
    if args.None? then None else
      var tags := ReadList(args.value.1);
      if tags.None? then None else ReadScalars(i.(testArgs := args.value.0, buildTags := tags.value.0), tags.value.1)
  }

  function ReadEnvironment(i: Inputs, fields: seq<string>): Option<Inputs>
  {
    var entries := EntriesUntil(fields, "contract");
    if entries.None? || entries.value.1 == [] then None else
      ReadLists(i.(environment := entries.value.0, contract := entries.value.1[0]), entries.value.1[1..])
  }

  function ReadDependencies(i: Inputs, fields: seq<string>): Option<Inputs>
  {
    var pairs := ModulePairs(fields);
    if pairs.None? || |pairs.value.1| < 4 then None else
      var rest := pairs.value.1;
      ReadEnvironment(i.(dependencies := pairs.value.0, toolchain := rest[0], platform := rest[2]), rest[4..])
  }

  const NO_INPUTS := Inputs(map[], map[], "", "", [], "", None, None, 0, 0, "", "", "", map[])

  function ReadFields(fields: seq<string>): Option<Inputs>
  {
    if |fields| < 2 then None else
      var pairs := FilePairs(fields[2..]);
      if pairs.None? then None else ReadDependencies(NO_INPUTS.(files := pairs.value.0), pairs.value.1)
  }

  function Read(bytes: string): Option<Inputs>
  {
    var fields := Decoded(bytes);
    if fields.None? then None else ReadFields(fields.value)
  }

  lemma PairsHead(keys: seq<string>, m: map<string, string>, tail: seq<string>)
    requires keys != [] && forall k :: k in keys ==> k in m
    ensures
      var all := PairsOf(keys, m) + tail;
      |all| >= 2 && all[0] == keys[0] && all[1] == m[keys[0]] && all[2..] == PairsOf(keys[1..], m) + tail
  {
    HeadOfList(keys[0], m[keys[0]], PairsOf(keys[1..], m), tail);
  }

  lemma HeadOfList(k: string, v: string, rest: seq<string>, tail: seq<string>)
    ensures
      var all := [k, v] + rest + tail;
      all[0] == k && all[1] == v && all[2..] == rest + tail
  {
    assert [k, v] + rest + tail == [k, v] + (rest + tail);
  }

  lemma RestrictHead(keys: seq<string>, m: map<string, string>)
    requires keys != [] && Distinct(keys) && forall k :: k in keys ==> k in m
    ensures (map k | k in keys :: m[k]) == (map k | k in keys[1..] :: m[k])[keys[0] := m[keys[0]]]
  {
    assert keys == [keys[0]] + keys[1..];
  }

  /** The heading of the dependencies is told by what follows it. */
  lemma {:induction false} HeadingOpens(keys: seq<string>, m: map<string, string>, tail: seq<string>)
    requires forall k :: k in keys ==> k in m && m[k] != "dependencies"
    ensures Opens(PairsOf(keys, m) + (["toolchain"] + tail))
  {
    var all := PairsOf(keys, m) + (["toolchain"] + tail);
    if keys == [] {
      assert all[0] == "toolchain";
    } else {
      PairsHead(keys, m, ["toolchain"] + tail);
      HeadingOpens(keys[1..], m, tail);
      assert keys[0] in keys;
    }
  }

  /** A file of that name is told by its value and by those after it. */
  lemma {:induction false} FileDoesNotOpen(v: string, keys: seq<string>, m: map<string, string>, tail: seq<string>)
    requires v != "toolchain" && "dependencies" !in keys
    requires forall k :: k in keys ==> k in m && m[k] != "toolchain"
    ensures !Opens([v] + (PairsOf(keys, m) + (["dependencies"] + tail)))
    decreases |keys|
  {
    var rest := PairsOf(keys, m) + (["dependencies"] + tail);
    var all := [v] + rest;
    if keys == [] {
      assert all[1] == "dependencies";
    } else {
      PairsHead(keys, m, ["dependencies"] + tail);
      assert keys[0] in keys && all[1] == keys[0];
      assert all[2..] == [m[keys[0]]] + (PairsOf(keys[1..], m) + (["dependencies"] + tail));
      FileDoesNotOpen(m[keys[0]], keys[1..], m, tail);
    }
  }

  lemma {:induction false} FilePairsRead(keys: seq<string>, m: map<string, string>, tail: seq<string>)
    requires Distinct(keys) && (forall k :: k in keys ==> k in m && m[k] != "toolchain") && Opens(tail)
    ensures FilePairs(PairsOf(keys, m) + (["dependencies"] + tail)) == Some((map k | k in keys :: m[k], tail))
  {
    var all := PairsOf(keys, m) + (["dependencies"] + tail);
    if keys == [] {
      assert all == ["dependencies"] + tail && all[1..] == tail;
    } else {
      PairsHead(keys, m, ["dependencies"] + tail);
      assert keys == [keys[0]] + keys[1..];
      if keys[0] == "dependencies" {
        assert all[1..] == [m[keys[0]]] + (PairsOf(keys[1..], m) + (["dependencies"] + tail));
        FileDoesNotOpen(m[keys[0]], keys[1..], m, tail);
      }
      FilePairsRead(keys[1..], m, tail);
      RestrictHead(keys, m);
    }
  }

  lemma {:induction false} ModulePairsRead(keys: seq<string>, m: map<string, string>, tail: seq<string>)
    requires Sorted(keys, TextLe) && Distinct(keys) && forall k :: k in keys ==> k in m
    requires |tail| > 1 && tail[1] == "platform"
    ensures ModulePairs(PairsOf(keys, m) + (["toolchain"] + tail)) == Some((map k | k in keys :: m[k], tail))
  {
    var all := PairsOf(keys, m) + (["toolchain"] + tail);
    if keys == [] {
      assert all == ["toolchain"] + tail && all[1..] == tail;
    } else {
      PairsHead(keys, m, ["toolchain"] + tail);
      assert keys == [keys[0]] + keys[1..];
      TailStays(keys, TextLe);
      if keys[0] == "toolchain" && |keys| > 1 {
        PairsHead(keys[1..], m, ["toolchain"] + tail);
        assert TextLe(keys[0], keys[1]);
        ToolchainAfterPlatform();
      }
      ModulePairsRead(keys[1..], m, tail);
      RestrictHead(keys, m);
    }
  }

  lemma ToolchainAfterPlatform()
    ensures !TextLe("toolchain", "platform")
  {
    assert "toolchain"[0] == 't' && "platform"[0] == 'p';
  }

  lemma {:induction false} PairsToEndRead(keys: seq<string>, m: map<string, string>)
    requires Distinct(keys) && forall k :: k in keys ==> k in m
    ensures PairsToEnd(PairsOf(keys, m)) == Some(map k | k in keys :: m[k])
  {
    if keys != [] {
      assert PairsOf(keys, m)[2..] == PairsOf(keys[1..], m);
      PairsToEndRead(keys[1..], m);
      assert (map k | k in keys :: m[k]) == (map k | k in keys[1..] :: m[k])[keys[0] := m[keys[0]]];
    }
  }

  lemma {:induction false} EntriesUntilRead(entries: seq<string>, stop: string, rest: seq<string>)
    requires stop !in entries
    ensures EntriesUntil(entries + ([stop] + rest), stop) == Some((entries, rest))
  {
    var all := entries + ([stop] + rest);
    if entries == [] {
      assert all == [stop] + rest && all[1..] == rest;
    } else {
      assert all[1..] == entries[1..] + ([stop] + rest);
      EntriesUntilRead(entries[1..], stop, rest);
      assert all[0] == entries[0] != stop && [entries[0]] + entries[1..] == entries;
    }
  }

  lemma ListRead(domain: string, l: Option<seq<string>>, rest: seq<string>)
    ensures ReadList(ListFields(domain, l) + rest) == Some((l, rest))
  {
    hide Format, Parse;
    var all := ListFields(domain, l) + rest;
    if l.None? {
      assert all[2..] == rest;
    } else {
      var n := |l.value|;
      NumberRoundTrip(n);
      assert all[1] == "present" && all[2] == Format(n);
      assert all[3..3 + n] == l.value && all[3 + n..] == rest;
    }
  }

  lemma WholeMap(m: map<string, string>)
    ensures Distinct(Ordered(m.Keys)) && (forall k :: k in Ordered(m.Keys) <==> k in m)
    ensures (map k | k in Ordered(m.Keys) :: m[k]) == m
  {
  }

  /** What the key keeps of the inputs: all but the order of the environment. */
  function Settled(i: Inputs): Inputs
  {
    i.(environment := Sort(i.environment, TextLe))
  }

  lemma ScalarsRead(i: Inputs, base: Inputs)
    ensures ReadScalars(base, ScalarFields(i)) ==
      Some(base.(commandTimeout := i.commandTimeout, targetTimeout := i.targetTimeout, goatest := i.goatest,
                 goatestBuild := i.goatestBuild, goMutants := i.goMutants, corpus := i.corpus))
  {
    hide Format, Parse, Ordered;
    WholeMap(i.corpus);
    PairsToEndRead(Ordered(i.corpus.Keys), i.corpus);
    assert ScalarFields(i)[11..] == MapFields(i.corpus);
    NumberRoundTrip(i.commandTimeout);
    NumberRoundTrip(i.targetTimeout);
  }

  lemma ListsRead(i: Inputs, base: Inputs)
    ensures ReadLists(base, ListsFields(i)) ==
      Some(base.(testArgs := i.testArgs, buildTags := i.buildTags, commandTimeout := i.commandTimeout,
                 targetTimeout := i.targetTimeout, goatest := i.goatest, goatestBuild := i.goatestBuild,
                 goMutants := i.goMutants, corpus := i.corpus))
  {
    hide ListFields, ScalarFields, ReadList, ReadScalars;
    var tags := ListFields("build-tags", i.buildTags) + ScalarFields(i);
    ListRead("test-args", i.testArgs, tags);
    ListRead("build-tags", i.buildTags, ScalarFields(i));
    ScalarsRead(i, base.(testArgs := i.testArgs, buildTags := i.buildTags));
  }

  /** The inputs whose encoding can be read back, whatever their files and modules are called: no value
      is the word that heads a section, and every environment entry has its equals sign. */
  ghost predicate Tellable(i: Inputs)
  {
    && (forall f :: f in i.files ==> i.files[f] != "toolchain")
    && (forall d :: d in i.dependencies ==> i.dependencies[d] != "dependencies")
    && (forall e :: e in i.environment ==> '=' in e)
  }

  predicate Hexadecimal(s: string)
  {
    forall c :: c in s ==> '0' <= c <= '9' || 'a' <= c <= 'f'
  }

  /** Digests are such values. */
  lemma DigestsAreTellable(i: Inputs)
    requires forall f :: f in i.files ==> Hexadecimal(i.files[f])
    requires forall d :: d in i.dependencies ==> Hexadecimal(i.dependencies[d])
    requires forall e :: e in i.environment ==> '=' in e
    ensures Tellable(i)
  {
    assert "toolchain"[0] == 't' && 't' in "toolchain";
    assert "dependencies"[2] == 'p' && 'p' in "dependencies";
  }

  lemma EnvironmentRead(i: Inputs, base: Inputs)
    requires Tellable(i)
    ensures ReadEnvironment(base, EnvironmentFields(i)) ==
      Some(Settled(i).(files := base.files, dependencies := base.dependencies, toolchain := base.toolchain, platform := base.platform))
  {
    hide ListsFields, ReadLists;
    var entries := Sort(i.environment, TextLe);
    SortMembers(i.environment, TextLe);
    assert "contract" !in entries by {
      assert '=' !in "contract";
    }
    var rest := [i.contract] + ListsFields(i);
    assert EnvironmentFields(i) == entries + (["contract"] + rest);
    EntriesUntilRead(entries, "contract", rest);
    assert rest[1..] == ListsFields(i);
    ListsRead(i, base.(environment := entries, contract := i.contract));
  }

  /** The fields determine the inputs. */
  lemma InputsRoundTrip(i: Inputs)
    requires Tellable(i)
    ensures ReadFields(Fields(i)) == Some(Settled(i))
  {
    hide EnvironmentFields, ReadEnvironment, PairsOf;
    var rest := ["toolchain", i.toolchain, "platform", i.platform, "environment"] + EnvironmentFields(i);
    var tail := [i.toolchain, "platform", i.platform, "environment"] + EnvironmentFields(i);
    var files, modules := Ordered(i.files.Keys), Ordered(i.dependencies.Keys);
    WholeMap(i.files);
    WholeMap(i.dependencies);
    assert rest == ["toolchain"] + tail && tail[4..] == EnvironmentFields(i);
    HeadingOpens(modules, i.dependencies, tail);
    FilePairsRead(files, i.files, DependencyFields(i));
    assert Fields(i)[2..] == MapFields(i.files) + (["dependencies"] + DependencyFields(i));
    ModulePairsRead(modules, i.dependencies, tail);
    EnvironmentRead(i, NO_INPUTS.(files := i.files, dependencies := i.dependencies, toolchain := i.toolchain, platform := i.platform));
  }

  ghost predicate CollisionFree(digest: string -> string)
  {
    forall a, b :: digest(a) == digest(b) ==> a == b
  }

  /** Two inputs, with any names, get the same key exactly when they agree on everything but the order of
      their environments. */
  lemma KeyDeterminesInputs(a: Inputs, b: Inputs, digest: string -> string)
    requires CollisionFree(digest)
    requires Tellable(a) && Tellable(b) && Short(Fields(a)) && Short(Fields(b))
    ensures digest(Encoded(Fields(a))) == digest(Encoded(Fields(b))) <==>
      a.(environment := []) == b.(environment := []) && multiset(a.environment) == multiset(b.environment)
  {
    hide Fields, Encoded, Decoded, ReadFields, Tellable, Short;
    if a.(environment := []) == b.(environment := []) && multiset(a.environment) == multiset(b.environment) {
      SortedTextsAgree(a.environment, b.environment);
      SettledFields(a);
      SettledFields(b);
      assert Settled(a) == Settled(b);
    }
    if digest(Encoded(Fields(a))) == digest(Encoded(Fields(b))) {
      FieldsRoundTrip(Fields(a));
      FieldsRoundTrip(Fields(b));
      InputsRoundTrip(a);
      InputsRoundTrip(b);
      SettledEqual(a, b);
    }
  }

  lemma SettledEqual(a: Inputs, b: Inputs)
    requires Settled(a) == Settled(b)
    ensures a.(environment := []) == b.(environment := []) && multiset(a.environment) == multiset(b.environment)
  {
    SortPermutes(a.environment, TextLe);
    SortPermutes(b.environment, TextLe);
  }

  lemma SettledFields(i: Inputs)
    ensures Fields(i) == Fields(Settled(i))
  {
    SortPermutes(i.environment, TextLe);
    SortedTextsAgree(i.environment, Sort(i.environment, TextLe));
  }

  lemma OnePair(k: string, v: string)
    ensures MapFields(map[k := v]) == [k, v]
  {
    var m := map[k := v];
    assert m.Keys == {k};
    ListedTexts([k], Ordered(m.Keys), m.Keys);
    var keys := [k];
    assert keys[1..] == [];
    assert PairsOf(keys, m) == [k, v] + PairsOf([], m);
  }

  /** A value that no digest can take, the word that heads the dependencies, blurs the sections. */
  lemma SectionsCanBlur()
    ensures exists a: Inputs, b: Inputs :: a.files != b.files && Encoded(Fields(a)) == Encoded(Fields(b))
  {
    hide Encoded, EnvironmentFields;
    var a := NO_INPUTS.(dependencies := map["a" := "dependencies"]);
    var b := NO_INPUTS.(files := map["dependencies" := "a"]);
    OnePair("a", "dependencies");
    OnePair("dependencies", "a");
    ListedTexts([], Ordered({}), {});
    assert NO_INPUTS.files.Keys == {};
    assert EnvironmentFields(a) == EnvironmentFields(b) by {
      SameSettings(a, b);
    }
    assert Fields(a) == Fields(b);
    assert a.files != b.files;
  }

  lemma SameSettings(a: Inputs, b: Inputs)
    requires a == NO_INPUTS.(dependencies := a.dependencies) && b == NO_INPUTS.(files := b.files)
    ensures EnvironmentFields(a) == EnvironmentFields(b)
  {
  }
}
