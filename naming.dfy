/**
 * The chain-naming scheme of the floater: base chains `ipfloater-<HOOK>`,
 * endpoint chains `ipfl-rule-<id>-<HOOK>`, and the prefix and suffix tests
 * by which the cleanup code finds them again (iptables.py:46-69, 125-139).
 */
module Naming {
  import opened Wrappers

  /** The three NAT hooks the floater attaches to. */
  datatype Hook = Prerouting | Postrouting | Output

  /** The name of the kernel's built-in chain for a hook. */
  function HookName(h: Hook): string
  {
    match h
    case Prerouting => "PREROUTING"
    case Postrouting => "POSTROUTING"
    case Output => "OUTPUT"
  }

  const BasePrefix: string := "ipfloater-"
  const RulePrefix: string := "ipfl-rule-"

  predicate HasPrefix(s: string, p: string)
  {
    |p| <= |s| && s[..|p|] == p
  }

  predicate HasSuffix(s: string, p: string)
  {
    |p| <= |s| && s[|s| - |p|..] == p
  }

  /** Python's `s[:n]`. */
  function Head(s: string, n: nat): string
  {
    if n <= |s| then s[..n] else s
  }

  /** Python's `s[-n:]` for a positive `n`. */
  function Tail(s: string, n: nat): string
  {
    if n <= |s| then s[|s| - n..] else s
  }

  /** The test `chainname[:10] == "ipfl-rule-"` that selects endpoint chains. */
  function IsEndpointChainName(name: string): (b: bool)
    ensures b <==> HasPrefix(name, RulePrefix)
  {
    Head(name, 10) == RulePrefix
  }

  lemma SuffixAt(s: string, p: string, k: nat)
    requires k < |p|
    ensures HasSuffix(s, p) ==> s[|s| - |p| + k] == p[k]
  {
    if HasSuffix(s, p) {
      assert s[|s| - |p|..][k] == p[k];
    }
  }

  /** No name ends with two of the hook suffixes: they differ at a common distance from the end. */
  lemma {:induction false} HookSuffixesExclusive(name: string)
    ensures !(HasSuffix(name, "-OUTPUT") && HasSuffix(name, "-POSTROUTING"))
    ensures !(HasSuffix(name, "-OUTPUT") && HasSuffix(name, "-PREROUTING"))
    ensures !(HasSuffix(name, "-PREROUTING") && HasSuffix(name, "-POSTROUTING"))
  {
    SuffixAt(name, "-OUTPUT", 0);
    SuffixAt(name, "-POSTROUTING", 5);
    SuffixAt(name, "-PREROUTING", 4);
    SuffixAt(name, "-PREROUTING", 2);
    SuffixAt(name, "-POSTROUTING", 3);
  }

  lemma HookSuffix(h: Hook)
    ensures "-" + HookName(h) == match h
      case Prerouting => "-PREROUTING"
      case Postrouting => "-POSTROUTING"
      case Output => "-OUTPUT"
  {
  }

  /**
   * The base chain a name is linked from, chosen by its suffix
   * (iptables.py:47-53: three tests in a row, the last match wins).
   */
  function LinkedHook(name: string): Option<Hook>
  {
    if Tail(name, 12) == "-POSTROUTING" then Some(Postrouting)
    else if Tail(name, 11) == "-PREROUTING" then Some(Prerouting)
    else if Tail(name, 7) == "-OUTPUT" then Some(Output)
    else None
  }

  /** A name is mapped to a hook exactly when it ends in `-` and that hook's name. */
  lemma LinkedHookSuffix(name: string, h: Hook)
    ensures LinkedHook(name) == Some(h) <==> HasSuffix(name, "-" + HookName(h))
  {
    TailIsSuffix(name, "-POSTROUTING");
    TailIsSuffix(name, "-PREROUTING");
    TailIsSuffix(name, "-OUTPUT");
    HookSuffixesExclusive(name);
    HookSuffix(h);
  }

  lemma TailIsSuffix(s: string, p: string)
    ensures Tail(s, |p|) == p <==> HasSuffix(s, p)
  {
  }

  /** `"ipfloater-%s" % hook`: the floater's own chain for a hook. */
  function BaseChain(h: Hook): (name: string)
    ensures HasPrefix(name, BasePrefix) && !IsEndpointChainName(name)
    ensures LinkedHook(name) == Some(h)
  {
    BaseChainAffixes(h);
    LinkedHookSuffix(BasePrefix + HookName(h), h);
    PrefixesExclusive(BasePrefix + HookName(h));
    BasePrefix + HookName(h)
  }

  /** `"ipfl-rule-%s-%s" % (id, hook)`: an endpoint's chain for a hook. */
  function EndpointChain(id: string, h: Hook): (name: string)
    ensures IsEndpointChainName(name) && LinkedHook(name) == Some(h)
  {
    EndpointChainAffixes(id, h);
    LinkedHookSuffix(RulePrefix + id + "-" + HookName(h), h);
    RulePrefix + id + "-" + HookName(h)
  }

  lemma BaseChainAffixes(h: Hook)
    ensures HasPrefix(BasePrefix + HookName(h), BasePrefix)
    ensures HasSuffix(BasePrefix + HookName(h), "-" + HookName(h))
  {
    PrefixOfConcat(BasePrefix, HookName(h));
    assert BasePrefix == "ipfloater" + "-";
    SuffixRegrouped("ipfloater", "-", HookName(h));
  }

  lemma EndpointChainAffixes(id: string, h: Hook)
    ensures HasPrefix(RulePrefix + id + "-" + HookName(h), RulePrefix)
    ensures HasSuffix(RulePrefix + id + "-" + HookName(h), "-" + HookName(h))
  {
    PrefixRegrouped(RulePrefix, id + "-", HookName(h));
    SuffixRegrouped(RulePrefix + id, "-", HookName(h));
  }

  lemma PrefixRegrouped(p: string, a: string, b: string)
    ensures HasPrefix(p + a + b, p)
  {
    assert (p + a + b)[..|p|] == p;
  }

  lemma PrefixOfConcat(p: string, q: string)
    ensures HasPrefix(p + q, p)
  {
    assert (p + q)[..|p|] == p;
  }

  lemma SuffixRegrouped(p: string, a: string, b: string)
    ensures HasSuffix(p + a + b, a + b)
  {
    assert (p + a + b)[|p|..] == a + b;
  }

  /** No name starts with both prefixes: they differ at their fifth character. */
  lemma PrefixesExclusive(s: string)
    ensures !(HasPrefix(s, BasePrefix) && HasPrefix(s, RulePrefix))
  {
    assert HasPrefix(s, BasePrefix) ==> s[4] == s[..10][4] == 'o';
    assert HasPrefix(s, RulePrefix) ==> s[4] == s[..10][4] == '-';
  }

  /** Which hook's base chain a name is, if any. */
  function BaseHook(name: string): (r: Option<Hook>)
    ensures forall h :: r == Some(h) <==> name == BaseChain(h)
  {
    assert forall h :: |BaseChain(h)| == |BasePrefix| + |HookName(h)|;
    if name == BaseChain(Postrouting) then Some(Postrouting)
    else if name == BaseChain(Prerouting) then Some(Prerouting)
    else if name == BaseChain(Output) then Some(Output)
    else None
  }

  /** Which hook's built-in chain a name is, if any. */
  function RootHook(name: string): (r: Option<Hook>)
    ensures forall h :: r == Some(h) <==> name == HookName(h)
  {
    if name == "POSTROUTING" then Some(Postrouting)
    else if name == "PREROUTING" then Some(Prerouting)
    else if name == "OUTPUT" then Some(Output)
    else None
  }

  /** The six chains of one endpoint id and the three hooks all have different names. */
  lemma ChainNamesDistinct(id: string)
    ensures forall h1, h2 :: BaseChain(h1) == BaseChain(h2) ==> h1 == h2
    ensures forall h1, h2 :: EndpointChain(id, h1) == EndpointChain(id, h2) ==> h1 == h2
    ensures forall h1, h2 :: BaseChain(h1) != EndpointChain(id, h2)
  {
    forall h1, h2 | BaseChain(h1) == BaseChain(h2) ensures h1 == h2 {
      assert LinkedHook(BaseChain(h1)) == Some(h2);
    }
    forall h1, h2 | EndpointChain(id, h1) == EndpointChain(id, h2) ensures h1 == h2 {
      assert LinkedHook(EndpointChain(id, h1)) == Some(h2);
    }
  }

  /** Distinct endpoints and hooks never share an endpoint chain. */
  lemma EndpointChainInjective(id1: string, h1: Hook, id2: string, h2: Hook)
    requires EndpointChain(id1, h1) == EndpointChain(id2, h2)
    ensures id1 == id2 && h1 == h2
  {
    assert h1 == h2 by {
      assert LinkedHook(EndpointChain(id1, h1)) == Some(h1) == Some(h2);
    }
    MiddleCancels(RulePrefix, id1, id2, "-", HookName(h1));
  }

  /** Two strings built around the same parts agree in the middle. */
  lemma MiddleCancels(p: string, a: string, b: string, m: string, q: string)
    requires p + a + m + q == p + b + m + q
    ensures a == b
  {
    var x := p + a + m + q;
    assert |a| == |b|;
    assert a == x[|p|..|p| + |a|];
    assert b == (p + b + m + q)[|p|..|p| + |b|];
  }

  /** A string with a known prefix and suffix is the two around its middle. */
  lemma PrefixMiddleSuffix(s: string, p: string, q: string)
    requires HasPrefix(s, p) && HasSuffix(s, q) && |p| + |q| <= |s|
    ensures s == p + s[|p|..|s| - |q|] + q
  {
    assert s == s[..|p|] + s[|p|..|s| - |q|] + s[|s| - |q|..];
  }

  /**
   * Every name the cleanup selects and maps to a hook, and that is long
   * enough to hold an id, is the endpoint chain of that id and hook.
   */
  lemma EndpointChainParsed(name: string, h: Hook)
    requires IsEndpointChainName(name) && LinkedHook(name) == Some(h)
    requires |RulePrefix| + |"-" + HookName(h)| <= |name|
    ensures exists id :: name == EndpointChain(id, h)
  {
    LinkedHookSuffix(name, h);
    var id := EndpointIdOf(name, h);
    assert name == EndpointChain(id, h);
  }

  lemma EndpointIdOf(name: string, h: Hook) returns (id: string)
    requires HasPrefix(name, RulePrefix) && HasSuffix(name, "-" + HookName(h))
    requires |RulePrefix| + |"-" + HookName(h)| <= |name|
    ensures name == RulePrefix + id + "-" + HookName(h)
  {
    var suffix := "-" + HookName(h);
    PrefixMiddleSuffix(name, RulePrefix, suffix);
    id := name[|RulePrefix|..|name| - |suffix|];
    assert RulePrefix + id + "-" + HookName(h) == RulePrefix + id + suffix;
  }
}
