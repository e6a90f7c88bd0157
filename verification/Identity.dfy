/** Names, namespaces and qualified identities. */
module Identity {
  import opened Wrappers

  const NAMESPACE_SEPARATOR := '/'

  /** In bytes. */
  const MAX_NAME_LEN := 128

  datatype NameKind = PluginName | RoleName | StepTypeName | NamespaceName | StepId

  datatype NameError = Empty | TooLong(len: nat) | QualifiedReserved | LeadingDigit | InvalidChar(ch: char)

  // ------------------------------------------------------------ the name grammar

  predicate IsLetter(c: char)
  {
    'a' <= c <= 'z' || 'A' <= c <= 'Z'
  }

  predicate IsDigit(c: char)
  {
    '0' <= c <= '9'
  }

  predicate NameChar(c: char, i: nat)
  {
    IsLetter(c) || IsDigit(c) || c == '_' || (c == '-' && i > 0)
  }

  /** How many bytes UTF-8 takes for these characters. */
  function ByteLen(s: string): nat
  {
    if s == "" then 0 else CharBytes(s[0]) + ByteLen(s[1..])
  }

  function CharBytes(c: char): nat
  {
    var u := c as int;
    if u < 0x80 then 1 else if u < 0x800 then 2 else if u < 0x10000 then 3 else 4
  }

  /** The first character, from `i` on, that a name may not have there. */
  function FirstInvalid(name: string, i: nat): Option<char>
    requires i <= |name|
    decreases |name| - i
  {
    if i == |name| then None
    else if !NameChar(name[i], i) then Some(name[i])
    else FirstInvalid(name, i + 1)
  }

  function ValidateName(kind: NameKind, name: string): Result<(), NameError>
  {
    if name == "" then Err(Empty)
    else if ByteLen(name) > MAX_NAME_LEN then Err(TooLong(ByteLen(name)))
    else if NAMESPACE_SEPARATOR in name then Err(QualifiedReserved)
    else if kind.StepId? && IsDigit(name[0]) then Err(LeadingDigit)
    else match FirstInvalid(name, 0)
         case Some(c) => Err(InvalidChar(c))
         case None => Ok(())
  }

  /** The root namespace is the empty string. */
  function ValidateNamespace(namespace: string): Result<(), NameError>
  {
    if namespace == "" then Ok(()) else ValidateName(NamespaceName, namespace)
  }

  /** What a name is made of, by code point: `0-9`, `A-Z`, `a-z`, the underscore and the hyphen. */
  predicate InAlphabet(c: char)
  {
    var u := c as int;
    0x30 <= u <= 0x39 || 0x41 <= u <= 0x5A || 0x61 <= u <= 0x7A || u == 0x5F || u == 0x2D
  }

  /** The grammar: 1 to 128 of `[A-Za-z0-9_-]`, not starting with `-`, and a step id not with a digit. */
  predicate IsName(kind: NameKind, name: string)
  {
    && 0 < |name| <= 128 && name[0] != '-'
    && (forall c | c in name :: InAlphabet(c))
    && !(kind == StepId && 0x30 <= name[0] as int <= 0x39)
  }

  function TwoTo(n: nat): nat
  {
    if n == 0 then 1 else 2 * TwoTo(n - 1)
  }

  /** The bits a code point may have in `k` bytes of UTF-8. */
  function PayloadBits(k: nat): nat
  {
    if k == 1 then 7 else 5 * k + 1
  }

  /** A character takes the fewest bytes that hold its code point. */
  lemma {:induction false} CharTakesFewestBytes(c: char)
    ensures 1 <= CharBytes(c) && c as int < TwoTo(PayloadBits(CharBytes(c)))
    ensures CharBytes(c) > 1 ==> c as int >= TwoTo(PayloadBits(CharBytes(c) - 1))
  {
    TwoToFive(2);
    TwoToFive(7);
    TwoToFive(12);
    TwoToFive(16);
    assert TwoTo(2) == 4;
    assert TwoTo(11) == 0x800 && TwoTo(16) == 0x10000;
  }

  lemma {:induction false} TwoToFive(n: nat)
    ensures TwoTo(n + 5) == 32 * TwoTo(n)
  {
    assert TwoTo(n + 1) == 2 * TwoTo(n);
    assert TwoTo(n + 2) == 2 * TwoTo(n + 1);
    assert TwoTo(n + 3) == 2 * TwoTo(n + 2);
    assert TwoTo(n + 4) == 2 * TwoTo(n + 3);
  }

  lemma {:induction false} ByteLenBounds(s: string)
    ensures |s| <= ByteLen(s)
    ensures (forall c | c in s :: c as int < 0x80) ==> ByteLen(s) == |s|
  {
    if s != "" {
      ByteLenBounds(s[1..]);
      assert s == [s[0]] + s[1..];
      assert s[0] in s && forall c | c in s[1..] :: c in s;
    }
  }

  lemma {:induction false} FirstInvalidFinds(name: string, i: nat)
    requires i <= |name|
    ensures FirstInvalid(name, i).None? <==> forall k: nat | i <= k < |name| :: NameChar(name[k], k)
    decreases |name| - i
  {
    if i < |name| {
      FirstInvalidFinds(name, i + 1);
    }
  }

  lemma {:induction false} AlphabetIs(c: char)
    ensures InAlphabet(c) <==> IsLetter(c) || IsDigit(c) || c == '_' || c == '-'
    ensures 0x30 <= c as int <= 0x39 <==> IsDigit(c)
    ensures InAlphabet(c) ==> c != '/' && c as int < 0x80
    ensures !IsLetter('-') && !IsDigit('-')
  {
  }

  /** A name is accepted exactly when the grammar derives it; so it never holds a separator. */
  lemma {:induction false} AcceptsExactlyNames(kind: NameKind, name: string)
    ensures ValidateName(kind, name).Ok? <==> IsName(kind, name)
    ensures ValidateName(kind, name).Ok? ==> '/' !in name
  {
    hide IsLetter, IsDigit, NameChar;
    ByteLenBounds(name);
    FirstInvalidFinds(name, 0);
    AllNameChars(name);
    if name != "" {
      AlphabetIs(name[0]);
    }
  }

  lemma {:induction false} AllNameChars(name: string)
    ensures (forall k: nat | k < |name| :: NameChar(name[k], k)) <==>
      (name == "" || name[0] != '-') && forall c | c in name :: InAlphabet(c)
    ensures (forall c | c in name :: InAlphabet(c)) ==> '/' !in name && forall c | c in name :: c as int < 0x80
  {
    hide IsLetter, IsDigit;
    forall c
      ensures InAlphabet(c) <==> IsLetter(c) || IsDigit(c) || c == '_' || c == '-'
      ensures InAlphabet(c) ==> c != '/' && c as int < 0x80
      ensures !IsLetter('-') && !IsDigit('-')
    {
      AlphabetIs(c);
    }
  }

  /** What each refusal says about the text; they are tried in this order. */
  ghost predicate SaysTruly(e: NameError, kind: NameKind, name: string)
  {
    match e
    case Empty => name == ""
    case TooLong(len) => len == ByteLen(name) > 128
    case QualifiedReserved => '/' in name && ByteLen(name) <= 128
    case LeadingDigit => kind == StepId && name != "" && 0x30 <= name[0] as int <= 0x39 && '/' !in name
    case InvalidChar(ch) =>
      '/' !in name && exists k: nat :: FirstOutside(name, k) && name[k] == ch
  }

  /** The first character that is none a name may have there. */
  predicate FirstOutside(name: string, k: nat)
  {
    && k < |name| && (!InAlphabet(name[k]) || (k == 0 && name[k] == '-'))
    && forall j | 0 <= j < k :: InAlphabet(name[j]) && (j == 0 ==> name[j] != '-')
  }

  lemma {:induction false} RefusalSaysTruly(kind: NameKind, name: string)
    requires ValidateName(kind, name).Err?
    ensures SaysTruly(ValidateName(kind, name).error, kind, name)
  {
    hide IsLetter, NameChar;
    if name != "" {
      AlphabetIs(name[0]);
      FirstInvalidIsFirst(name, 0);
    }
  }

  lemma {:induction false} FirstInvalidIsFirst(name: string, i: nat)
    requires i <= |name| && forall j | 0 <= j < i :: InAlphabet(name[j]) && (j == 0 ==> name[j] != '-')
    ensures FirstInvalid(name, i).Some? ==> exists k: nat ::
      FirstOutside(name, k) && name[k] == FirstInvalid(name, i).value
    decreases |name| - i
  {
    hide IsLetter, IsDigit;
    if i < |name| {
      AlphabetIs(name[i]);
      if NameChar(name[i], i) {
        FirstInvalidIsFirst(name, i + 1);
      } else {
        assert FirstOutside(name, i);
      }
    }
  }

  // ------------------------------------------------------------ qualified identities

  function Qualify(namespace: string, name: string): string
  {
    if namespace == "" then name else namespace + [NAMESPACE_SEPARATOR] + name
  }

  /** Where the last separator is. */
  function LastSeparator(s: string): (at: Option<nat>)
    ensures at.Some? ==> at.value < |s| && s[at.value] == NAMESPACE_SEPARATOR
    ensures at.Some? ==> forall k | at.value < k < |s| :: s[k] != NAMESPACE_SEPARATOR
    ensures at.None? <==> NAMESPACE_SEPARATOR !in s
  {
    if s == "" then None
    else
      var last := |s| - 1;
      if s[last] == NAMESPACE_SEPARATOR then Some(last)
      else
        assert s == s[..last] + [s[last]];
        LastSeparator(s[..last])
  }

  function NamespaceOf(identity: string): string
  {
    match LastSeparator(identity) case Some(at) => identity[..at] case None => ""
  }

  function LocalNameOf(identity: string): string
  {
    match LastSeparator(identity) case Some(at) => identity[at + 1..] case None => identity
  }

  lemma {:induction false} SeparatorIsLast(namespace: string, name: string)
    requires NAMESPACE_SEPARATOR !in name
    ensures LastSeparator(namespace + [NAMESPACE_SEPARATOR] + name) == Some(|namespace|)
  {
    var s := namespace + [NAMESPACE_SEPARATOR] + name;
    assert s[|namespace|] == NAMESPACE_SEPARATOR;
    forall k | |namespace| < k < |s|
      ensures s[k] != NAMESPACE_SEPARATOR
    {
      assert s[k] == name[k - |namespace| - 1];
    }
  }

  /** Both halves come back, whatever the depth of the namespace. */
  lemma {:induction false} QualifyThenSplit(namespace: string, name: string)
    requires '/' !in name
    ensures Qualify("", name) == name && (namespace != "" ==> Qualify(namespace, name) == namespace + "/" + name)
    ensures NamespaceOf(Qualify(namespace, name)) == namespace && LocalNameOf(Qualify(namespace, name)) == name
  {
    if namespace != "" {
      SeparatorIsLast(namespace, name);
    }
  }

  /** Distinct names or namespaces never share an identity. */
  lemma {:induction false} QualifyIsInjective(namespace1: string, name1: string, namespace2: string, name2: string)
    requires ValidateName(PluginName, name1).Ok? && ValidateName(PluginName, name2).Ok?
    requires Qualify(namespace1, name1) == Qualify(namespace2, name2)
    ensures namespace1 == namespace2 && name1 == name2
  {
    AcceptsExactlyNames(PluginName, name1);
    AcceptsExactlyNames(PluginName, name2);
    QualifyThenSplit(namespace1, name1);
    QualifyThenSplit(namespace2, name2);
  }

  /** An identity is what its halves compose to, unless it begins with its only separator. */
  lemma {:induction false} SplitThenQualify(identity: string)
    ensures Qualify(NamespaceOf(identity), LocalNameOf(identity)) == identity <==> LastSeparator(identity) != Some(0)
  {
    var at := LastSeparator(identity);
    if at.Some? {
      assert identity == identity[..at.value] + [NAMESPACE_SEPARATOR] + identity[at.value + 1..];
      assert |LocalNameOf(identity)| < |identity|;
    }
  }

  // ------------------------------------------------------------ ancestor chains

  function Parent(namespace: string): string
  {
    NamespaceOf(namespace)
  }

  /** The namespace itself, then each enclosing one, ending with root. */
  function AncestorNamespaces(namespace: string): (chain: seq<string>)
    ensures chain != [] && chain[0] == namespace
    decreases |namespace|
  {
    if namespace == "" then [""]
    else [namespace] + AncestorNamespaces(Parent(namespace))
  }

  /** In the same namespace as `of`, or in one enclosing it. */
  predicate IsOnChain(target: string, of: string)
  {
    NamespaceOf(target) in AncestorNamespaces(NamespaceOf(of))
  }

  /** Separator-respecting prefix: root encloses all, `a` encloses `a/b` but not `ab`. */
  predicate Encloses(outer: string, inner: string)
  {
    outer == "" || outer == inner || outer + "/" <= inner
  }

  lemma {:induction false} ParentEncloses(namespace: string, outer: string)
    requires namespace != ""
    ensures Encloses(outer, namespace) <==> outer == namespace || Encloses(outer, Parent(namespace))
  {
    var at := LastSeparator(namespace);
    var prefix := outer + "/";
    if prefix <= namespace {
      assert namespace[|outer|] == NAMESPACE_SEPARATOR;
      assert at.Some? && at.value >= |outer|;
      assert at.value > |outer| ==> prefix <= namespace[..at.value];
      assert outer == namespace[..|outer|];
    }
    if at.Some? && outer == namespace[..at.value] {
      assert prefix == namespace[..at.value + 1];
    }
  }

  /** Each step of the chain is shorter: the nearest namespace stands first. */
  lemma {:induction false} ChainClimbs(namespace: string, i: nat, j: nat)
    requires i < j < |AncestorNamespaces(namespace)|
    ensures |AncestorNamespaces(namespace)[i]| > |AncestorNamespaces(namespace)[j]|
    decreases |namespace|
  {
    if namespace != "" {
      var above := AncestorNamespaces(Parent(namespace));
      if i > 0 {
        ChainClimbs(Parent(namespace), i - 1, j - 1);
      } else if j > 1 {
        ChainClimbs(Parent(namespace), 0, j - 1);
      } else {
        assert above[0] == Parent(namespace);
      }
    }
  }

  lemma {:induction false} ChainIsPrefixes(namespace: string, outer: string)
    ensures outer in AncestorNamespaces(namespace) <==> Encloses(outer, namespace)
    decreases |namespace|
  {
    if namespace != "" {
      ParentEncloses(namespace, outer);
      ChainIsPrefixes(Parent(namespace), outer);
    }
  }

  lemma {:induction false} EnclosesIsTransitive(a: string, b: string, c: string)
    requires Encloses(a, b) && Encloses(b, c)
    ensures Encloses(a, c)
  {
  }

  /** The containment rule is prefix containment of the namespaces, at any depth. */
  lemma {:induction false} OnChainIsContainment(target: string, of: string)
    ensures IsOnChain(target, of) <==> Encloses(NamespaceOf(target), NamespaceOf(of))
  {
    ChainIsPrefixes(NamespaceOf(of), NamespaceOf(target));
  }

  lemma {:induction false} OnChainIsReflexive(a: string)
    ensures IsOnChain(a, a)
  {
    OnChainIsContainment(a, a);
  }

  lemma {:induction false} OnChainIsTransitive(a: string, b: string, c: string)
    requires IsOnChain(a, b) && IsOnChain(b, c)
    ensures IsOnChain(a, c)
  {
    OnChainIsContainment(a, b);
    OnChainIsContainment(b, c);
    EnclosesIsTransitive(NamespaceOf(a), NamespaceOf(b), NamespaceOf(c));
    OnChainIsContainment(a, c);
  }

  /** Two plugins on each other's chain share their namespace: there is no way back down. */
  lemma {:induction false} OnChainIsAntisymmetric(a: string, b: string)
    requires IsOnChain(a, b) && IsOnChain(b, a)
    ensures NamespaceOf(a) == NamespaceOf(b)
  {
    OnChainIsContainment(a, b);
    OnChainIsContainment(b, a);
  }
}
