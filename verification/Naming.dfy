/** Device identifiers and the Kubernetes object names built from them
    (server/kubernetes/validate.go, and the name formatting every Kubernetes call repeats). */
module Naming {

  const PREFIX := "edge-device-"
  const MAX_ID_LENGTH := 240
  const MAX_NAME_LENGTH := 253

  // ---------- Lower-casing, on ASCII ----------

  function LowerChar(c: char): char {
    if 'A' <= c <= 'Z' then (c as int + 32) as char else c
  }

  function ToLower(s: string): string {
    seq(|s|, i requires 0 <= i < |s| => LowerChar(s[i]))
  }

  // ---------- The regular expression, with the usual language semantics ----------

  datatype Regex =
    | OneOf(test: char -> bool)
    | Then(first: Regex, second: Regex)
    | Opt(body: Regex)
    | Star(body: Regex)

  /** Whether the whole of `s` belongs to the language of `r` (an anchored match). */
  predicate Matches(r: Regex, s: string)
    decreases r, |s|
  {
    match r
    case OneOf(test) => |s| == 1 && test(s[0])
    case Then(a, b) => exists k | 0 <= k <= |s| :: Matches(a, s[..k]) && Matches(b, s[k..])
    case Opt(a) => s == [] || Matches(a, s)
    case Star(a) => s == [] || exists k | 0 < k <= |s| :: Matches(a, s[..k]) && Matches(r, s[k..])
  }

  predicate AlphaNum(c: char) { 'a' <= c <= 'z' || '0' <= c <= '9' }

  predicate LabelChar(c: char) { AlphaNum(c) || c == '-' }

  const ALPHANUM := OneOf(AlphaNum)
  const LABEL_CHARS := Star(OneOf(LabelChar))

  /** ^[a-z0-9]([a-z0-9-]*[a-z0-9])?$ */
  const DEVICE_ID_REGEX := Then(ALPHANUM, Opt(Then(LABEL_CHARS, ALPHANUM)))

  /** The host-name label syntax of section 2.1 of RFC 1123, in lower case. */
  predicate HostLabel(s: string) {
    && s != []
    && (forall i | 0 <= i < |s| :: LabelChar(s[i]))
    && AlphaNum(s[0])
    && AlphaNum(s[|s| - 1])
  }

  lemma {:induction false} StarOfLabelChars(s: string)
    ensures Matches(LABEL_CHARS, s) <==> forall i | 0 <= i < |s| :: LabelChar(s[i])
    decreases |s|
  {
    if s != [] {
      StarOfLabelChars(s[1..]);
      if Matches(LABEL_CHARS, s) {
        var k :| 0 < k <= |s| && Matches(OneOf(LabelChar), s[..k]) && Matches(LABEL_CHARS, s[k..]);
        assert k == 1;
        forall i | 0 <= i < |s| ensures LabelChar(s[i]) {
          if i > 0 { assert s[i] == s[1..][i - 1]; }
        }
      }
      if forall i | 0 <= i < |s| :: LabelChar(s[i]) {
        assert Matches(OneOf(LabelChar), s[..1]) && Matches(LABEL_CHARS, s[1..]);
      }
    }
  }

  lemma OneOfMatch(test: char -> bool, s: string)
    ensures Matches(OneOf(test), s) <==> |s| == 1 && test(s[0])
  {
  }

  lemma ThenMatch(a: Regex, b: Regex, s: string)
    ensures Matches(Then(a, b), s)
       <==> exists k | 0 <= k <= |s| :: Matches(a, s[..k]) && Matches(b, s[k..])
  {
  }

  lemma RegexTail(t: string)
    ensures Matches(Then(LABEL_CHARS, ALPHANUM), t)
       <==> t != [] && AlphaNum(t[|t| - 1]) && forall i | 0 <= i < |t| :: LabelChar(t[i])
  {
    ThenMatch(LABEL_CHARS, ALPHANUM, t);
    forall k | 0 <= k <= |t|
      ensures Matches(ALPHANUM, t[k..]) <==> k == |t| - 1 && AlphaNum(t[k])
    {
      OneOfMatch(AlphaNum, t[k..]);
    }
    if t != [] {
      var k := |t| - 1;
      StarOfLabelChars(t[..k]);
      assert forall i | 0 <= i < k :: t[..k][i] == t[i];
    }
  }

  /** The compiled pattern accepts exactly the lower-case host-name labels. */
  lemma RegexIsHostLabel(s: string)
    ensures Matches(DEVICE_ID_REGEX, s) <==> HostLabel(s)
  {
    var tail := Opt(Then(LABEL_CHARS, ALPHANUM));
    if s != [] {
      RegexTail(s[1..]);
      assert forall i | 1 <= i < |s| :: s[i] == s[1..][i - 1];
      if Matches(DEVICE_ID_REGEX, s) {
        var k :| 0 <= k <= |s| && Matches(ALPHANUM, s[..k]) && Matches(tail, s[k..]);
        assert k == 1;
      }
      if HostLabel(s) {
        assert Matches(ALPHANUM, s[..1]);
        if |s| > 1 {
          assert forall i | 0 <= i < |s| - 1 :: s[1..][i] == s[i + 1];
        }
        assert Matches(tail, s[1..]);
      }
    }
  }

  // ---------- ValidateDeviceID ----------

  datatype IdCheck = ValidId | EmptyId | TooLongId | NotLowercaseId | BadCharactersId

  /** The checks in their order: emptiness, length, case, pattern. */
  function ValidateDeviceID(id: string): (r: IdCheck)
    ensures r.ValidId? <==> HostLabel(id) && |id| <= MAX_ID_LENGTH
    ensures r.EmptyId? <==> id == ""
    ensures r.TooLongId? <==> |id| > 240
    ensures r.NotLowercaseId? <==> |id| <= 240 && exists i :: 0 <= i < |id| && 'A' <= id[i] <= 'Z'
  {
    RegexIsHostLabel(id);
    HostLabelIsLower(id);
    LowerIff(id);
    if |id| == 0 then EmptyId
    else if |id| > MAX_ID_LENGTH then TooLongId
    else if id != ToLower(id) then NotLowercaseId
    else if !Matches(DEVICE_ID_REGEX, id) then BadCharactersId
    else ValidId
  }

  lemma LowerIff(s: string)
    ensures s == ToLower(s) <==> forall i :: 0 <= i < |s| ==> !('A' <= s[i] <= 'Z')
  {
    if exists i :: 0 <= i < |s| && 'A' <= s[i] <= 'Z' {
      var i :| 0 <= i < |s| && 'A' <= s[i] <= 'Z';
      assert ToLower(s)[i] != s[i];
    }
  }

  lemma HostLabelIsLower(s: string)
    ensures HostLabel(s) ==> ToLower(s) == s
  {
  }

  // ---------- Object names ----------

  /** The name of a device's Service and of its Endpoints. */
  function ServiceName(id: string): string {
    PREFIX + ToLower(id)
  }

  /** What the cleanup loops slice out of a listed name. */
  function DeviceIdOf(name: string): string
    requires |PREFIX| <= |name|
  {
    name[|PREFIX|..]
  }

  /** A name this program can have given: the prefix and a lower-case rest. */
  predicate IsObjectName(name: string) {
    PREFIX <= name && ToLower(name[|PREFIX|..]) == name[|PREFIX|..]
  }

  predicate ObjectNames(names: set<string>) {
    forall n <- names :: |PREFIX| <= |n| && IsObjectName(n)
  }

  lemma ToLowerIdempotent(s: string)
    ensures ToLower(ToLower(s)) == ToLower(s)
  {
  }

  /** Every name the program writes is an object name, for any id at all. */
  lemma ServiceNameIsObjectName(id: string)
    ensures IsObjectName(ServiceName(id)) && DeviceIdOf(ServiceName(id)) == ToLower(id)
  {
    assert ServiceName(id)[|PREFIX|..] == ToLower(id);
    ToLowerIdempotent(id);
  }

  /** Two ids share their objects exactly when they differ at most in case. */
  lemma NamesCollideIffSameLowercase(a: string, b: string)
    ensures ServiceName(a) == ServiceName(b) <==> ToLower(a) == ToLower(b)
  {
    ServiceNameIsObjectName(a);
    ServiceNameIsObjectName(b);
  }

  /** On validated ids naming is injective, fits the Kubernetes limit, and slicing inverts it. */
  lemma ValidIdsNameInjectively(a: string, b: string)
    requires ValidateDeviceID(a).ValidId? && ValidateDeviceID(b).ValidId?
    ensures ServiceName(a) == ServiceName(b) ==> a == b
    ensures |ServiceName(a)| <= MAX_NAME_LENGTH
    ensures DeviceIdOf(ServiceName(a)) == a
  {
    HostLabelIsLower(a);
    HostLabelIsLower(b);
    NamesCollideIffSameLowercase(a, b);
    ServiceNameIsObjectName(a);
  }

  /** Without validation (device seeding skips it) two distinct ids can own the same objects. */
  lemma SeededIdsCanCollide()
    ensures "Edge-01" != "edge-01" && ServiceName("Edge-01") == ServiceName("edge-01") == "edge-device-edge-01"
    ensures ValidateDeviceID("Edge-01") == NotLowercaseId
  {
    assert ToLower("Edge-01") == "edge-01";
    assert ToLower("edge-01") == "edge-01";
    assert "Edge-01"[0] != "edge-01"[0];
  }

  /** A cleanup loop slices a listed name and formats it again: it hits the name it
      listed exactly when that name is one the program could have written. */
  lemma CleanupHitsListedName(name: string)
    requires |PREFIX| <= |name|
    ensures ServiceName(DeviceIdOf(name)) == name <==> IsObjectName(name)
  {
    if IsObjectName(name) {
      assert name == PREFIX + name[|PREFIX|..];
    }
    if ServiceName(DeviceIdOf(name)) == name {
      ServiceNameIsObjectName(DeviceIdOf(name));
    }
  }
}
