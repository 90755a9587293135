/**
 * Start-up configuration of the JCR-backed CMIS service: keys prefixed
 * `jcr.` become repository parameters whose values may name system
 * properties in braces, and `mount-path` selects the repository node
 * the service exposes. System properties are passed in as a map.
 */
module ServiceConfiguration {
  import opened Wrappers
  import CmisModel

  const MOUNT_PATH_CONFIG: string := "mount-path"
  const PREFIX_JCR_CONFIG: string := "jcr."

  /** The message with which a lookup of the empty system property name is rejected. */
  const EMPTY_KEY_MESSAGE: string := "key can't be empty"

  /** The value of a system property, or nothing when it is not set. */
  function Lookup(sys: map<string, string>, name: string): string
  {
    if name in sys then sys[name] else ""
  }

  /** A system property lookup: the empty name is an illegal argument, an unset property is `None`. */
  function GetProperty(sys: map<string, string>, name: string): Result<Option<string>, CmisModel.CmisError>
  {
    if name == [] then Failure(CmisModel.IllegalArgument(EMPTY_KEY_MESSAGE))
    else if name in sys then Success(Some(sys[name]))
    else Success(None)
  }

  /** The position of the first closing brace in `t`, if there is one. */
  function CloseIndex(t: string): (r: Option<nat>)
    ensures r.None? <==> '}' !in t
    ensures r.Some? ==> r.value < |t| && t[r.value] == '}'
    ensures r.Some? ==> forall k :: 0 <= k < r.value ==> t[k] != '}'
  {
    if t == [] then None
    else if t[0] == '}' then Some(0)
    else match CloseIndex(t[1..])
      case None => None
      case Some(j) => Some(j + 1)
  }

  /**
   * The text a configuration value expands to: characters outside
   * braces are copied, `{name}` stands for the system property `name`
   * (nothing when it is unset), and an opening brace that is never closed
   * drops the rest of the value. A name runs up to the first closing brace,
   * so it may itself contain an opening brace.
   */
  function Expand(s: string, sys: map<string, string>): string
    decreases |s|
  {
    if s == [] then []
    else if s[0] != '{' then [s[0]] + Expand(s[1..], sys)
    else match CloseIndex(s[1..])
      case None => []
      case Some(j) => Lookup(sys, s[1..1 + j]) + Expand(s[j + 2..], sys)
  }

  /**
   * Whether reading the value meets a closed brace pair with no name
   * between the braces, whose lookup is rejected. An opening brace inside
   * a name is part of the name, so `{{}` names `{` and is not empty.
   */
  predicate HasEmptyReference(s: string)
    decreases |s|
  {
    if s == [] then false
    else if s[0] != '{' then HasEmptyReference(s[1..])
    else match CloseIndex(s[1..])
      case None => false
      case Some(j) => j == 0 || HasEmptyReference(s[j + 2..])
  }

  /**
   * The reference meaning of a configuration value: rejected when it holds
   * an empty reference, otherwise its expansion.
   */
  function Replace(s: string, sys: map<string, string>): Result<string, CmisModel.CmisError>
  {
    if HasEmptyReference(s) then Failure(CmisModel.IllegalArgument(EMPTY_KEY_MESSAGE))
    else Success(Expand(s, sys))
  }

  /** An absent value stays absent; a present one is replaced. */
  function ReplaceValue(v: Option<string>, sys: map<string, string>): Result<Option<string>, CmisModel.CmisError>
  {
    if v.None? then Success(None)
    else match Replace(v.value, sys)
      case Failure(e) => Failure(e)
      case Success(t) => Success(Some(t))
  }

  /** What remains to be produced after an opening brace and the name text `name` read so far. */
  function Pending(name: string, t: string, sys: map<string, string>): string
  {
    match CloseIndex(t)
      case None => []
      case Some(j) => Lookup(sys, name + t[..j]) + Expand(t[j + 1..], sys)
  }

  /** Whether an empty reference is still to come after an opening brace and the name text `name`. */
  predicate PendingEmpty(name: string, t: string)
  {
    match CloseIndex(t)
      case None => false
      case Some(j) => name + t[..j] == [] || HasEmptyReference(t[j + 1..])
  }

  lemma OpenStep(s: string, sys: map<string, string>)
    requires s != [] && s[0] == '{'
    ensures Expand(s, sys) == Pending([], s[1..], sys)
  {
    var t := s[1..];
    match CloseIndex(t)
      case None =>
      case Some(j) =>
        assert s[1..1 + j] == [] + t[..j];
        assert s[j + 2..] == t[j + 1..];
  }

  lemma OpenStepEmpty(s: string)
    requires s != [] && s[0] == '{'
    ensures HasEmptyReference(s) == PendingEmpty([], s[1..])
  {
    var t := s[1..];
    match CloseIndex(t)
      case None =>
      case Some(j) =>
        assert |[] + t[..j]| == j;
        assert s[j + 2..] == t[j + 1..];
  }

  lemma LiteralStep(s: string, sys: map<string, string>)
    requires s != [] && s[0] != '{'
    ensures Expand(s, sys) == [s[0]] + Expand(s[1..], sys)
  {
  }

  lemma LiteralStepEmpty(s: string)
    requires s != [] && s[0] != '{'
    ensures HasEmptyReference(s) == HasEmptyReference(s[1..])
  {
  }

  lemma NameStep(name: string, t: string, sys: map<string, string>)
    requires t != [] && t[0] != '}'
    ensures Pending(name, t, sys) == Pending(name + [t[0]], t[1..], sys)
    ensures PendingEmpty(name, t) == PendingEmpty(name + [t[0]], t[1..])
  {
    match CloseIndex(t[1..])
      case None =>
      case Some(j) =>
        assert CloseIndex(t) == Some(j + 1);
        assert name + t[..j + 1] == name + [t[0]] + t[1..][..j];
        assert t[j + 2..] == t[1..][j + 1..];
  }

  lemma CloseStep(name: string, t: string, sys: map<string, string>)
    requires t != [] && t[0] == '}'
    ensures Pending(name, t, sys) == Lookup(sys, name) + Expand(t[1..], sys)
    ensures PendingEmpty(name, t) == (name == [] || HasEmptyReference(t[1..]))
  {
    assert name + t[..0] == name;
  }

  /** What remains to be produced from `t`, inside a reference whose name text so far is `name` or outside one. */
  ghost function Remaining(inProperty: bool, name: string, t: string, sys: map<string, string>): string
  {
    if inProperty then Pending(name, t, sys) else Expand(t, sys)
  }

  /** Whether an empty reference is still to come in `t`, inside a reference or outside one. */
  ghost predicate RemainingEmpty(inProperty: bool, name: string, t: string)
  {
    if inProperty then PendingEmpty(name, t) else HasEmptyReference(t)
  }

  lemma ScanLiteral(str: string, i: nat, result: string, name: string, whole: string, bad: bool,
                    sys: map<string, string>)
    requires i < |str| && str[i] != '{'
    requires result + Remaining(false, name, str[i..], sys) == whole
    requires RemainingEmpty(false, name, str[i..]) == bad
    ensures (result + [str[i]]) + Remaining(false, name, str[i + 1..], sys) == whole
    ensures RemainingEmpty(false, name, str[i + 1..]) == bad
  {
    assert str[i..][1..] == str[i + 1..];
    LiteralStep(str[i..], sys);
    LiteralStepEmpty(str[i..]);
  }

  lemma ScanOpen(str: string, i: nat, result: string, name: string, whole: string, bad: bool,
                 sys: map<string, string>)
    requires i < |str| && str[i] == '{'
    requires result + Remaining(false, name, str[i..], sys) == whole
    requires RemainingEmpty(false, name, str[i..]) == bad
    ensures result + Remaining(true, [], str[i + 1..], sys) == whole
    ensures RemainingEmpty(true, [], str[i + 1..]) == bad
  {
    assert str[i..][1..] == str[i + 1..];
    OpenStep(str[i..], sys);
    OpenStepEmpty(str[i..]);
  }

  lemma ScanName(str: string, i: nat, result: string, name: string, whole: string, bad: bool,
                 sys: map<string, string>)
    requires i < |str| && str[i] != '}'
    requires result + Remaining(true, name, str[i..], sys) == whole
    requires RemainingEmpty(true, name, str[i..]) == bad
    ensures result + Remaining(true, name + [str[i]], str[i + 1..], sys) == whole
    ensures RemainingEmpty(true, name + [str[i]], str[i + 1..]) == bad
  {
    assert str[i..][1..] == str[i + 1..];
    NameStep(name, str[i..], sys);
  }

  lemma ScanClose(str: string, i: nat, result: string, name: string, whole: string, sys: map<string, string>)
    requires i < |str| && str[i] == '}'
    requires result + Remaining(true, name, str[i..], sys) == whole
    ensures name in sys ==> (result + sys[name]) + Remaining(false, name, str[i + 1..], sys) == whole
    ensures name !in sys ==> result + Remaining(false, name, str[i + 1..], sys) == whole
  {
    var e := Expand(str[i + 1..], sys);
    assert whole == result + (Lookup(sys, name) + e) by {
      assert str[i..][1..] == str[i + 1..];
      CloseStep(name, str[i..], sys);
    }
    if name in sys {
      assert result + (sys[name] + e) == (result + sys[name]) + e;
    } else {
      assert Lookup(sys, name) + e == e;
    }
  }

  lemma ScanCloseEmpty(str: string, i: nat, name: string, bad: bool)
    requires i < |str| && str[i] == '}'
    requires RemainingEmpty(true, name, str[i..]) == bad
    ensures name == [] ==> bad
    ensures name != [] ==> RemainingEmpty(false, name, str[i + 1..]) == bad
  {
    assert str[i..][1..] == str[i + 1..];
    CloseStep(name, str[i..], map[]);
  }

  lemma ScanEnd(str: string, result: string, name: string, inProperty: bool, whole: string, bad: bool,
                sys: map<string, string>)
    requires result + Remaining(inProperty, name, str[|str|..], sys) == whole
    requires RemainingEmpty(inProperty, name, str[|str|..]) == bad
    ensures result == whole
    ensures !bad
  {
    assert str[|str|..] == [];
    assert Pending(name, [], sys) == [] && Expand([], sys) == [];
    assert !PendingEmpty(name, []) && !HasEmptyReference([]);
    assert result + [] == result;
  }

  lemma ScanOutcome(str: string, whole: string, bad: bool, sys: map<string, string>)
    requires whole == Expand(str, sys) && bad == HasEmptyReference(str)
    ensures bad ==> ReplaceValue(Some(str), sys) == Failure(CmisModel.IllegalArgument(EMPTY_KEY_MESSAGE))
    ensures !bad ==> ReplaceValue(Some(str), sys) == Success(Some(whole))
  {
  }

  /**
   * Scans the value once, collecting the name between braces and looking
   * the property up when the closing brace arrives: its value, if set, is
   * appended, and an empty name aborts the scan with the lookup's failure.
   */
  method ReplaceSystemProperties(s: Option<string>, sys: map<string, string>)
    returns (r: Result<Option<string>, CmisModel.CmisError>)
    ensures r == ReplaceValue(s, sys)
  {
    if s.None? {
      return Success(None);
    }
    var str := s.value;
    ghost var whole := Expand(str, sys);
    ghost var bad := HasEmptyReference(str);
    var result: string := [];
    var property: string := [];
    var inProperty := false;
    var i := 0;
    assert str[0..] == str && [] + whole == whole;
    while i < |str|
      invariant 0 <= i <= |str|
      invariant result + Remaining(inProperty, property, str[i..], sys) == whole
      invariant RemainingEmpty(inProperty, property, str[i..]) == bad
    {
      var c := str[i];
      if inProperty {
        if c == '}' {
          ScanClose(str, i, result, property, whole, sys);
          ScanCloseEmpty(str, i, property, bad);
          var value := GetProperty(sys, property);
          if value.Failure? {
            ScanOutcome(str, whole, bad, sys);
            return Failure(value.error);
          }
          if value.value.Some? {
            result := result + value.value.value;
          }
          inProperty := false;
        } else {
          ScanName(str, i, result, property, whole, bad, sys);
          property := property + [c];
        }
      } else {
        if c == '{' {
          ScanOpen(str, i, result, property, whole, bad, sys);
          property := [];
          inProperty := true;
        } else {
          ScanLiteral(str, i, result, property, whole, bad, sys);
          result := result + [c];
        }
      }
      i := i + 1;
    }
    ScanEnd(str, result, property, inProperty, whole, bad, sys);
    ScanOutcome(str, whole, bad, sys);
    return Success(Some(result));
  }

  /** A value without an opening brace is returned unchanged. */
  lemma {:induction false} ExpandWithoutBraces(s: string, sys: map<string, string>)
    requires '{' !in s
    ensures Expand(s, sys) == s
    ensures Replace(s, sys) == Success(s)
    decreases |s|
  {
    if s != [] {
      assert '{' !in s[1..];
      ExpandWithoutBraces(s[1..], sys);
    }
  }

  lemma {:induction false} CloseIndexAfterName(name: string, rest: string)
    requires '}' !in name
    ensures CloseIndex(name + ['}'] + rest) == Some(|name|)
    decreases |name|
  {
    var t := name + ['}'] + rest;
    if name != [] {
      assert t[0] == name[0];
      assert t[1..] == name[1..] + ['}'] + rest;
      assert '}' !in name[1..];
      CloseIndexAfterName(name[1..], rest);
    }
  }

  /** `{name}` at the start of a value is replaced by the property's value. */
  lemma SubstituteAtStart(name: string, b: string, sys: map<string, string>)
    requires '}' !in name
    ensures Expand(['{'] + name + ['}'] + b, sys) == Lookup(sys, name) + Expand(b, sys)
  {
    var s := ['{'] + name + ['}'] + b;
    assert s[0] == '{';
    assert s[1..] == name + ['}'] + b;
    CloseIndexAfterName(name, b);
    assert s[1..1 + |name|] == name;
    assert s[|name| + 2..] == b;
  }

  /** `{name}` at the start of a value is an empty reference exactly when the name is empty. */
  lemma EmptyReferenceAtStart(name: string, b: string)
    requires '}' !in name
    ensures HasEmptyReference(['{'] + name + ['}'] + b) == (name == [] || HasEmptyReference(b))
  {
    var s := ['{'] + name + ['}'] + b;
    assert s[0] == '{';
    assert s[1..] == name + ['}'] + b;
    CloseIndexAfterName(name, b);
    assert s[|name| + 2..] == b;
  }

  /** Brace-free text in front of a value holds no reference. */
  lemma {:induction false} EmptyReferenceAfterLiteralPrefix(a: string, rest: string)
    requires '{' !in a
    ensures HasEmptyReference(a + rest) == HasEmptyReference(rest)
    decreases |a|
  {
    if a == [] {
      assert a + rest == rest;
    } else {
      assert (a + rest)[1..] == a[1..] + rest;
      assert '{' !in a[1..];
      EmptyReferenceAfterLiteralPrefix(a[1..], rest);
    }
  }

  /** Brace-free text in front of a value is copied as it is. */
  lemma {:induction false} ExpandLiteralPrefix(a: string, rest: string, sys: map<string, string>)
    requires '{' !in a
    ensures Expand(a + rest, sys) == a + Expand(rest, sys)
    decreases |a|
  {
    if a == [] {
      assert a + rest == rest;
    } else {
      var s := a + rest;
      assert s[1..] == a[1..] + rest;
      assert '{' !in a[1..];
      LiteralStep(s, sys);
      ExpandLiteralPrefix(a[1..], rest, sys);
      assert [a[0]] + (a[1..] + Expand(rest, sys)) == a + Expand(rest, sys);
    }
  }

  /**
   * `{name}` after brace-free text is replaced by the property's value and
   * expansion carries on after the closing brace. The name may contain an
   * opening brace: only the first closing brace ends it.
   */
  lemma ExpandSubstitutes(a: string, name: string, b: string, sys: map<string, string>)
    requires '{' !in a && '}' !in name && name != []
    ensures Expand(a + ['{'] + name + ['}'] + b, sys) == a + Lookup(sys, name) + Expand(b, sys)
    ensures HasEmptyReference(a + ['{'] + name + ['}'] + b) == HasEmptyReference(b)
  {
    var group := ['{'] + name + ['}'] + b;
    assert HasEmptyReference(a + ['{'] + name + ['}'] + b) == HasEmptyReference(b) by {
      assert a + ['{'] + name + ['}'] + b == a + group;
      EmptyReferenceAfterLiteralPrefix(a, group);
      EmptyReferenceAtStart(name, b);
    }
    calc {
      Expand(a + ['{'] + name + ['}'] + b, sys);
      { assert a + ['{'] + name + ['}'] + b == a + group; }
      Expand(a + group, sys);
      { ExpandLiteralPrefix(a, group, sys); }
      a + Expand(group, sys);
      { SubstituteAtStart(name, b, sys); }
      a + (Lookup(sys, name) + Expand(b, sys));
      a + Lookup(sys, name) + Expand(b, sys);
    }
  }

  /** A dollar sign is an ordinary character: `${x}` becomes `$` followed by the value of `x`. */
  lemma DollarIsLiteral(name: string, sys: map<string, string>)
    requires '}' !in name && name != []
    ensures Replace(['$', '{'] + name + ['}'], sys) == Success(['$'] + Lookup(sys, name))
  {
    var v := ['$', '{'] + name + ['}'];
    assert v == ['$'] + ['{'] + name + ['}'] + [];
    ExpandSubstitutes(['$'], name, [], sys);
    assert !HasEmptyReference(v) && Expand(v, sys) == ['$'] + Lookup(sys, name) + [];
    assert ['$'] + Lookup(sys, name) + [] == ['$'] + Lookup(sys, name);
  }

  /**
   * Braces with nothing between them, reached from brace-free text, look up
   * the empty property name and reject the value, whatever follows.
   */
  lemma EmptyReferenceFails(a: string, b: string, sys: map<string, string>)
    requires '{' !in a
    ensures Replace(a + ['{', '}'] + b, sys) == Failure(CmisModel.IllegalArgument(EMPTY_KEY_MESSAGE))
  {
    assert a + ['{', '}'] + b == a + (['{'] + [] + ['}'] + b);
    EmptyReferenceAfterLiteralPrefix(a, ['{'] + [] + ['}'] + b);
    EmptyReferenceAtStart([], b);
  }

  /** A first opening brace, after brace-free text, that is never closed drops everything from it on. */
  lemma UnterminatedBraceDropsRest(a: string, t: string, sys: map<string, string>)
    requires '{' !in a && '}' !in t
    ensures Replace(a + ['{'] + t, sys) == Success(a)
  {
    var open := ['{'] + t;
    assert a + ['{'] + t == a + open && open[1..] == t;
    ExpandLiteralPrefix(a, open, sys);
    EmptyReferenceAfterLiteralPrefix(a, open);
    assert a + [] == a;
  }

  /** With no system property set, expansion never lengthens a value. */
  lemma {:induction false} ExpandWithoutPropertiesShrinks(s: string)
    ensures |Expand(s, map[])| <= |s|
    decreases |s|
  {
    if s != [] {
      if s[0] != '{' {
        ExpandWithoutPropertiesShrinks(s[1..]);
      } else {
        match CloseIndex(s[1..])
          case None =>
          case Some(j) =>
            ExpandWithoutPropertiesShrinks(s[j + 2..]);
      }
    }
  }

  lemma NoOpenBraceInConcat(a: string, b: string)
    requires '{' !in a && '{' !in b
    ensures '{' !in a + b
  {
  }

  /** When no property value holds an opening brace, neither does an expanded value. */
  lemma {:induction false} ExpandLeavesNoOpenBrace(s: string, sys: map<string, string>)
    requires forall name :: name in sys ==> '{' !in sys[name]
    ensures '{' !in Expand(s, sys)
    decreases |s|
  {
    if s != [] {
      if s[0] != '{' {
        ExpandLeavesNoOpenBrace(s[1..], sys);
        NoOpenBraceInConcat([s[0]], Expand(s[1..], sys));
      } else {
        match CloseIndex(s[1..])
          case None =>
          case Some(j) =>
            ExpandLeavesNoOpenBrace(s[j + 2..], sys);
            var name := s[1..1 + j];
            assert '{' !in Lookup(sys, name) by {
              if name in sys {
                assert '{' !in sys[name];
              }
            }
            NoOpenBraceInConcat(Lookup(sys, name), Expand(s[j + 2..], sys));
      }
    }
  }

  /**
   * Replacing twice is replacing once, when no property value holds an
   * opening brace: a replaced value holds no reference, empty or not.
   */
  lemma ExpandIdempotent(s: string, sys: map<string, string>)
    requires forall name :: name in sys ==> '{' !in sys[name]
    ensures Expand(Expand(s, sys), sys) == Expand(s, sys)
    ensures Replace(s, sys).Success? ==> Replace(Replace(s, sys).value, sys) == Replace(s, sys)
  {
    ExpandLeavesNoOpenBrace(s, sys);
    ExpandWithoutBraces(Expand(s, sys), sys);
  }

  /** The settings read at start-up: repository parameters and the mount path, if one is given. */
  datatype Configuration = Configuration(jcr: map<string, Option<string>>, mountPath: Option<string>)

  predicate IsJcrKey(key: string)
  {
    |PREFIX_JCR_CONFIG| <= |key| && key[..|PREFIX_JCR_CONFIG|] == PREFIX_JCR_CONFIG
  }

  function JcrKey(key: string): string
    requires IsJcrKey(key)
  {
    key[|PREFIX_JCR_CONFIG|..]
  }

  lemma JcrKeyRestores(key: string)
    requires IsJcrKey(key)
    ensures PREFIX_JCR_CONFIG + JcrKey(key) == key
  {
    assert key == key[..|PREFIX_JCR_CONFIG|] + key[|PREFIX_JCR_CONFIG|..];
  }

  /**
   * Reads the start-up parameters of a freshly created service factory.
   * Every `jcr.`-prefixed key becomes a repository parameter named by the
   * rest of the key, with its value replaced; `mount-path` sets the mount
   * path; every other key is ignored. A `jcr.` value holding an empty
   * reference makes the whole reading fail with the lookup's error.
   */
  method ReadConfiguration(parameters: map<string, Option<string>>, sys: map<string, string>)
    returns (r: Result<Configuration, CmisModel.CmisError>)
    ensures r.Failure? <==> exists key :: key in parameters && IsJcrKey(key) && ReplaceValue(parameters[key], sys).Failure?
    ensures r.Failure? ==> r.error == CmisModel.IllegalArgument(EMPTY_KEY_MESSAGE)
    ensures r.Success? ==> forall key :: key in parameters && IsJcrKey(key) ==>
              JcrKey(key) in r.value.jcr && ReplaceValue(parameters[key], sys) == Success(r.value.jcr[JcrKey(key)])
    ensures r.Success? ==> forall name :: name in r.value.jcr ==> PREFIX_JCR_CONFIG + name in parameters
    ensures r.Success? ==>
              r.value.mountPath == if MOUNT_PATH_CONFIG in parameters then parameters[MOUNT_PATH_CONFIG] else None
  {
    var jcr: map<string, Option<string>> := map[];
    var mountPath: Option<string> := None;
    var remaining := parameters.Keys;
    while remaining != {}
      invariant remaining <= parameters.Keys
      invariant forall key :: key in parameters && key !in remaining && IsJcrKey(key) ==>
                  JcrKey(key) in jcr && ReplaceValue(parameters[key], sys) == Success(jcr[JcrKey(key)])
      invariant forall name :: name in jcr ==>
                  PREFIX_JCR_CONFIG + name in parameters && PREFIX_JCR_CONFIG + name !in remaining
      invariant mountPath == if MOUNT_PATH_CONFIG in parameters && MOUNT_PATH_CONFIG !in remaining
                             then parameters[MOUNT_PATH_CONFIG] else None
      decreases |remaining|
    {
      var key :| key in remaining;
      assert !IsJcrKey(MOUNT_PATH_CONFIG) by {
        assert MOUNT_PATH_CONFIG[0] != PREFIX_JCR_CONFIG[0];
      }
      if IsJcrKey(key) {
        var jcrKey := JcrKey(key);
        var jcrValue := ReplaceSystemProperties(parameters[key], sys);
        if jcrValue.Failure? {
          return Failure(jcrValue.error);
        }
        JcrKeyRestores(key);
        forall other | other in parameters && other !in remaining && IsJcrKey(other)
          ensures JcrKey(other) != jcrKey
        {
          JcrKeyRestores(other);
        }
        jcr := jcr[jcrKey := jcrValue.value];
      } else if key == MOUNT_PATH_CONFIG {
        mountPath := parameters[key];
      }
      remaining := remaining - {key};
    }
    r := Success(Configuration(jcr, mountPath));
  }
}
