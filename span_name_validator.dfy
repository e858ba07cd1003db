/** Span-name validation: three checks run in a fixed order on a chain of
    handlers (non-blank string, part count, forbidden characters), the first
    failure raising ValueError with that handler's message. */
module NameValidation {
  import opened Exceptions
  import opened Chain

  /** Default part counts: a validator defaults to root names, a lone parts handler to one part. */
  const VALIDATOR_DEFAULT_PARTS: int := 3
  const HAS_VALID_PARTS_DEFAULT_PARTS: int := 1

  const INVALID_STRING_MESSAGE := "invalid string"
  const INVALID_CHARACTERS_MESSAGE := "String contains invalid characters"
  /** The forbidden characters: ASCII punctuation except '.', '_' and '-'. */
  const FORBIDDEN_CHARS: set<char> := {'!', '@', '#', '$', '%', '^', '&', '*', '(', ')', '+', '=', '[', ']', '{', '}', '|', '\\', ';', ':', '\'', '\"', ',', '<', '>', '/', '?', '`', '~'}

  function PartsMessage(partsCount: int): string {
    "String must have exactly " + IntToString(partsCount) + " parts separated by '.'"
  }

  /** The characters Python's str.strip() removes (str.isspace). */
  predicate IsSpace(c: char) {
    || ('\t' <= c <= '\r')
    || ('\U{1C}' <= c <= '\U{1F}')
    || c == ' ' || c == '\U{85}' || c == '\U{A0}' || c == '\U{1680}'
    || ('\U{2000}' <= c <= '\U{200A}')
    || c == '\U{2028}' || c == '\U{2029}' || c == '\U{202F}' || c == '\U{205F}' || c == '\U{3000}'
  }

  /** True when strip() leaves nothing: the string is empty or all whitespace. */
  predicate IsBlank(s: string) {
    forall i :: 0 <= i < |s| ==> IsSpace(s[i])
  }

  /** str.lstrip(): drops leading whitespace. */
  function StripLeading(s: string): string {
    if s != [] && IsSpace(s[0]) then StripLeading(s[1..]) else s
  }

  /** str.rstrip(): drops trailing whitespace. */
  function StripTrailing(s: string): string {
    if s != [] && IsSpace(s[|s| - 1]) then StripTrailing(s[..|s| - 1]) else s
  }

  /** str.strip() */
  function Strip(s: string): string {
    StripTrailing(StripLeading(s))
  }

  lemma {:induction false} StripLeadingBlank(s: string)
    ensures StripLeading(s) == [] <==> IsBlank(s)
    ensures StripLeading(s) != [] ==> !IsSpace(StripLeading(s)[0])
  {
    if s != [] && IsSpace(s[0]) {
      StripLeadingBlank(s[1..]);
      assert IsBlank(s) <==> IsBlank(s[1..]) by {
        assert forall i :: 0 < i < |s| ==> s[i] == s[1..][i - 1];
      }
    }
  }

  lemma {:induction false} StripTrailingKeeps(t: string)
    requires t != [] && !IsSpace(t[0])
    ensures StripTrailing(t) != []
  {
    if IsSpace(t[|t| - 1]) {
      StripTrailingKeeps(t[..|t| - 1]);
    }
  }

  /** strip() leaves nothing exactly when every character is whitespace. */
  lemma StripEmptyIffBlank(s: string)
    ensures Strip(s) == [] <==> IsBlank(s)
  {
    StripLeadingBlank(s);
    if StripLeading(s) != [] {
      StripTrailingKeeps(StripLeading(s));
    }
  }

  predicate HasForbiddenChar(s: string) {
    exists i :: 0 <= i < |s| && s[i] in FORBIDDEN_CHARS
  }

  /** any(char in invalid_chars for char in s), scanning from the left. */
  function AnyForbidden(s: string): (b: bool)
    ensures b <==> HasForbiddenChar(s)
  {
    if s == [] then false
    else if s[0] in FORBIDDEN_CHARS then true
    else
      assert forall i :: 0 < i < |s| ==> s[i] == s[1..][i - 1];
      AnyForbidden(s[1..])
  }

  function CountChar(s: string, c: char): nat {
    if s == [] then 0 else (if s[0] == c then 1 else 0) + CountChar(s[1..], c)
  }

  /** Python's str.split(sep) for a one-character separator: every piece,
      empty ones included. */
  function Split(s: string, sep: char): (parts: seq<string>)
    ensures |parts| >= 1
    ensures forall k :: 0 <= k < |parts| ==> sep !in parts[k]
  {
    if s == [] then [""]
    else
      var rest := Split(s[1..], sep);
      if s[0] == sep then [""] + rest
      else [[s[0]] + rest[0]] + rest[1..]
  }

  /** sep.join(parts). */
  function Join(parts: seq<string>, sep: char): string
    requires |parts| >= 1
  {
    if |parts| == 1 then parts[0] else parts[0] + [sep] + Join(parts[1..], sep)
  }

  /** split(".") yields one piece more than there are separators. */
  lemma {:induction false} SplitCount(s: string, sep: char)
    ensures |Split(s, sep)| == CountChar(s, sep) + 1
  {
    if s != [] {
      SplitCount(s[1..], sep);
    }
  }

  /** Joining the pieces back with the separator gives the original string. */
  lemma {:induction false} SplitJoin(s: string, sep: char)
    ensures Join(Split(s, sep), sep) == s
  {
    if s != [] {
      var rest := Split(s[1..], sep);
      SplitJoin(s[1..], sep);
      if s[0] != sep {
        var parts := [[s[0]] + rest[0]] + rest[1..];
        if |rest| > 1 {
          assert parts[1..] == rest[1..];
          assert Join(rest, sep) == rest[0] + [sep] + Join(rest[1..], sep);
        }
      } else {
        assert ([""] + rest)[1..] == rest;
      }
    }
  }

  /** IsValidString: rejects a string that is empty after strip(). */
  function IsValidString(request: string): (r: Option<string>)
    ensures r == if IsBlank(request) then Some(INVALID_STRING_MESSAGE) else None
  {
    StripEmptyIffBlank(request);
    if Strip(request) == [] then Some(INVALID_STRING_MESSAGE) else None
  }

  /** HasValidParts(parts_count): rejects a string whose split(".") does not have exactly parts_count pieces. */
  function HasValidParts(partsCount: int, request: string): (r: Option<string>)
    ensures r == if CountChar(request, '.') + 1 != partsCount then Some(PartsMessage(partsCount)) else None
  {
    SplitCount(request, '.');
    if |Split(request, '.')| != partsCount then Some(PartsMessage(partsCount)) else None
  }

  /** HasInvalidCharacters: rejects a string holding any forbidden character. */
  function HasInvalidCharacters(request: string): (r: Option<string>)
    ensures r == if HasForbiddenChar(request) then Some(INVALID_CHARACTERS_MESSAGE) else None
  {
    if AnyForbidden(request) then Some(INVALID_CHARACTERS_MESSAGE) else None
  }

  /** The outcomes of the validator's chain, in the order it wires it. */
  function NameOutcomes(name: string, partsCount: int): seq<Option<string>> {
    [IsValidString(name), HasValidParts(partsCount, name), HasInvalidCharacters(name)]
  }

  /** What SpanNameValidator(parts_count).validate(name) does: return normally or raise ValueError. */
  function ValidateName(name: string, partsCount: int): (r: Result<()>)
    ensures r.Raise? ==> r.exc.ValueError?
    ensures r.Ok? <==>
      IsValidString(name).None? && HasValidParts(partsCount, name).None? && HasInvalidCharacters(name).None?
  {
    var outcomes := NameOutcomes(name, partsCount);
    FirstFailurePass(outcomes);
    assert |outcomes| == 3 && outcomes[0] == IsValidString(name);
    assert outcomes[1] == HasValidParts(partsCount, name) && outcomes[2] == HasInvalidCharacters(name);
    match FirstFailure(outcomes)
    case None => Ok(())
    case Some(message) => Raise(ValueError(message))
  }

  /** The validator's chain unrolled: the three checks in order, first failure wins. */
  lemma ValidateNameUnfold(name: string, partsCount: int)
    ensures ValidateName(name, partsCount) ==
      if IsBlank(name) then Raise(ValueError(INVALID_STRING_MESSAGE))
      else if |Split(name, '.')| != partsCount then Raise(ValueError(PartsMessage(partsCount)))
      else if HasForbiddenChar(name) then Raise(ValueError(INVALID_CHARACTERS_MESSAGE))
      else Ok(())
  {
    var os := NameOutcomes(name, partsCount);
    assert FirstFailure(os) == if os[0].Some? then os[0] else FirstFailure(os[1..]);
    var rest := os[1..];
    assert rest == [HasValidParts(partsCount, name), HasInvalidCharacters(name)];
    assert FirstFailure(rest) == if rest[0].Some? then rest[0] else FirstFailure(rest[1..]);
    var last := rest[1..];
    assert last == [HasInvalidCharacters(name)];
    assert FirstFailure(last) == if last[0].Some? then last[0] else FirstFailure(last[1..]);
    assert last[1..] == [];
  }

  /** The checks run in the order string, parts, characters, and the first
      failure alone is reported; a name passes exactly when it is not blank,
      has partsCount - 1 dots and no forbidden character. */
  lemma ValidateNameOrder(name: string, partsCount: int)
    ensures IsBlank(name) ==> ValidateName(name, partsCount) == Raise(ValueError(INVALID_STRING_MESSAGE))
    ensures !IsBlank(name) && CountChar(name, '.') + 1 != partsCount
      ==> ValidateName(name, partsCount) == Raise(ValueError(PartsMessage(partsCount)))
    ensures !IsBlank(name) && CountChar(name, '.') + 1 == partsCount && HasForbiddenChar(name)
      ==> ValidateName(name, partsCount) == Raise(ValueError(INVALID_CHARACTERS_MESSAGE))
    ensures ValidateName(name, partsCount).Ok?
      <==> !IsBlank(name) && CountChar(name, '.') + 1 == partsCount && !HasForbiddenChar(name)
  {
    ValidateNameUnfold(name, partsCount);
    SplitCount(name, '.');
  }

  /** A one-part (action) name never contains a dot. */
  lemma ActionNameHasNoDot(name: string)
    ensures ValidateName(name, 1).Ok? ==> '.' !in name
  {
    ValidateNameOrder(name, 1);
    if '.' in name {
      CountPositive(name, '.');
    }
  }

  lemma {:induction false} CountCharConcat(a: string, b: string, c: char)
    ensures CountChar(a + b, c) == CountChar(a, c) + CountChar(b, c)
  {
    if a == [] {
      assert a + b == b;
    } else {
      assert (a + b)[1..] == a[1..] + b;
      CountCharConcat(a[1..], b, c);
    }
  }

  lemma {:induction false} CountPositive(s: string, c: char)
    requires c in s
    ensures CountChar(s, c) > 0
  {
    if s[0] != c {
      assert c in s[1..];
      CountPositive(s[1..], c);
    }
  }

  lemma {:induction false} CountZero(s: string, c: char)
    requires c !in s
    ensures CountChar(s, c) == 0
  {
    if s != [] {
      assert c !in s[1..];
      CountZero(s[1..], c);
    }
  }

  /** A valid one-part name is exactly a non-blank dot-free string without forbidden characters. */
  lemma ValidActionName(name: string)
    ensures ValidateName(name, 1).Ok? <==> !IsBlank(name) && '.' !in name && !HasForbiddenChar(name)
  {
    ValidateNameOrder(name, 1);
    ActionNameHasNoDot(name);
    if '.' !in name {
      CountZero(name, '.');
    }
  }

  /** The empty name reports "invalid string", never a part-count error. */
  lemma EmptyNameExample(partsCount: int)
    ensures ValidateName("", partsCount) == Raise(ValueError("invalid string"))
    ensures ValidateName(" \t", partsCount) == Raise(ValueError("invalid string"))
  {
    ValidateNameOrder("", partsCount);
    ValidateNameOrder(" \t", partsCount);
  }

  /** Empty pieces are not rejected: "a..b" passes the three-part check. */
  lemma EmptyPiecesExample()
    ensures ValidateName("a..b", 3) == Ok(())
  {
    var name := "a..b";
    assert !IsBlank(name) by { assert !IsSpace(name[0]); }
    assert CountChar(name, '.') == 2;
    assert !HasForbiddenChar(name);
    ValidateNameOrder(name, 3);
  }

  /** A two-part name is refused as a root name, a three-part one as an action name. */
  lemma PartCountExamples()
    ensures ValidateName("a.b", 3) == Raise(ValueError(PartsMessage(3)))
    ensures ValidateName("a.b.c", 1) == Raise(ValueError(PartsMessage(1)))
  {
    var root, action := "a.b", "a.b.c";
    assert !IsBlank(root) by { assert !IsSpace(root[0]); }
    assert !IsBlank(action) by { assert !IsSpace(action[0]); }
    assert CountChar(root, '.') == 1 && CountChar(action, '.') == 2;
    ValidateNameOrder(root, 3);
    ValidateNameOrder(action, 1);
  }

  /** A forbidden character is reported only once the part count is right:
      "a;b.c.d" (three parts) reports the character, "a;b.c" (two parts) the part count. */
  lemma ForbiddenCharExamples()
    ensures ValidateName("a;b.c.d", 3) == Raise(ValueError(INVALID_CHARACTERS_MESSAGE))
    ensures ValidateName("a;b.c", 3) == Raise(ValueError(PartsMessage(3)))
  {
    var three, two := "a;b.c.d", "a;b.c";
    assert !IsBlank(three) by { assert !IsSpace(three[0]); }
    assert !IsBlank(two) by { assert !IsSpace(two[0]); }
    assert CountChar(three, '.') == 2 && CountChar(two, '.') == 1;
    assert HasForbiddenChar(three) by { assert three[1] in FORBIDDEN_CHARS; }
    ValidateNameOrder(three, 3);
    ValidateNameOrder(two, 3);
  }

  /** The part-count message as the source formats it for the two counts in use. */
  lemma PartsMessageText()
    ensures PartsMessage(3) == "String must have exactly 3 parts separated by '.'"
    ensures PartsMessage(1) == "String must have exactly 1 parts separated by '.'"
  {
  }

  /** Three handlers carrying the validator's checks, in order, produce its outcomes. */
  lemma NameChainOutcomes(first: ChainHandler, second: ChainHandler, third: ChainHandler, name: string, partsCount: int)
    requires first.check == IsValidString && second.check == PartsCheck(partsCount)
    requires third.check == HasInvalidCharacters
    ensures Outcomes([first, second, third], name) == NameOutcomes(name, partsCount)
  {
    assert [first, second, third][1..] == [second, third] && [second, third][1..] == [third];
    assert Outcomes([third], name) == [HasInvalidCharacters(name)];
  }

  /** The check a HasValidParts(parts_count) handler runs. */
  function PartsCheck(partsCount: int := HAS_VALID_PARTS_DEFAULT_PARTS): Check {
    request => HasValidParts(partsCount, request)
  }

  class SpanNameValidator {
    const partsCount: int

    constructor (partsCount: int := VALIDATOR_DEFAULT_PARTS)
      ensures this.partsCount == partsCount
    {
      this.partsCount := partsCount;
    }

    /** Wires IsValidString -> HasValidParts -> HasInvalidCharacters with
        SetNext, runs the chain, and raises ValueError with the first failure. */
    method Validate(spanName: string) returns (r: Result<()>)
      ensures r == ValidateName(spanName, partsCount)
    {
      var chain := new ChainHandler(IsValidString);
      var partsHandler := new ChainHandler(PartsCheck(partsCount));
      var charsHandler := new ChainHandler(HasInvalidCharacters);
      ghost var hs := [chain, partsHandler, charsHandler];
      NameChainOutcomes(chain, partsHandler, charsHandler, spanName, partsCount);
      var h := chain.SetNext(partsHandler);
      h := partsHandler.SetNext(charsHandler);
      assert IsChain(hs);
      var result := chain.Handle(spanName, hs);
      if result.Some? {
        r := Raise(ValueError(result.value));
      } else {
        r := Ok(());
      }
    }
  }
}
