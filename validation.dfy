/**
 * Form validation on the client: rules that test a field's value, a
 * validator that runs a list of rules and reports the first that fails,
 * a per-field error record, the two ready-made checks for a game ID and
 * a player name, and the sanitizer applied to free text.
 */
module Validation {
  import opened Wrappers
  import opened Text
  import opened Decimal
  import opened OrderedMaps

  /** What a field can hold when a rule looks at it. */
  datatype Value = Null | Undefined | Str(s: string)

  /** `String(value)`. */
  function ToText(v: Value): string {
    match v
    case Null => "null"
    case Undefined => "undefined"
    case Str(s) => s
  }

  /** A test on a value, and the message shown when it fails. */
  datatype Rule = Rule(test: Value -> bool, message: string)

  /** The outcome of running rules on a value: valid, or the message of the rule that failed. */
  datatype ValidationResult = ValidationResult(valid: bool, error: Option<string>)

  /** A value holding nothing a user typed: `null`, `undefined`, or only white space. */
  predicate IsBlank(v: Value) {
    v.Null? || v.Undefined? || forall k :: 0 <= k < |v.s| ==> IsJsSpace(v.s[k])
  }

  // ---------------------------------------------------------------------
  // The rules

  /** `rules.required`: fails exactly on a blank value. */
  function Required(message: string): (r: Rule)
    ensures r.message == message
    ensures forall v :: r.test(v) <==> !IsBlank(v)
  {
    forall s: string ensures Trim(s) == [] <==> IsBlank(Str(s)) {
      TrimEmptyIffAllSpace(s);
    }
    Rule(v => v != Null && v != Undefined && Trim(ToText(v)) != [], message)
  }

  /** `message || default`: an absent or empty message gives way to the default. */
  function OrDefault(message: Option<string>, default: string): (m: string)
    ensures message.Some? && message.value != [] ==> m == message.value
    ensures !(message.Some? && message.value != []) ==> m == default
    ensures |m| == 0 ==> |default| == 0
  {
    if message.Some? && message.value != [] then message.value else default
  }

  /** `rules.minLength`: the text of the value has at least `min` UTF-16 code units. */
  function MinLength(min: int, message: Option<string>): (r: Rule)
    ensures r.message == OrDefault(message, "Must be at least " + IntToString(min) + " characters")
    ensures forall v :: r.test(v) <==> Utf16Length(ToText(v)) >= min
  {
    Rule(v => Utf16Length(ToText(v)) >= min, OrDefault(message, "Must be at least " + IntToString(min) + " characters"))
  }

  /** `rules.maxLength`: the text of the value has at most `max` UTF-16 code units. */
  function MaxLength(max: int, message: Option<string>): (r: Rule)
    ensures r.message == OrDefault(message, "Must be no more than " + IntToString(max) + " characters")
    ensures forall v :: r.test(v) <==> Utf16Length(ToText(v)) <= max
  {
    Rule(v => Utf16Length(ToText(v)) <= max, OrDefault(message, "Must be no more than " + IntToString(max) + " characters"))
  }

  /** `rules.pattern`: the regular expression, given here as the set of strings it finds a match in, accepts the text. */
  function Pattern(matches: string -> bool, message: string): (r: Rule)
    ensures r.message == message
    ensures forall s :: r.test(Str(s)) == matches(s)
  {
    var r := Rule(v => matches(ToText(v)), message);
    assert forall s :: ToText(Str(s)) == s;
    r
  }

  /** `^\d{4}$`: exactly four ASCII digits. */
  predicate IsGameId(s: string) {
    |s| == 4 && forall k :: 0 <= k < 4 ==> IsDigit(s[k])
  }

  /** `rules.gameId`. */
  function GameIdRule(): (r: Rule)
    ensures r.message == "Game ID must be exactly 4 digits"
    ensures forall s :: r.test(Str(s)) <==> IsGameId(s)
  {
    Rule(v => IsGameId(ToText(v)), "Game ID must be exactly 4 digits")
  }

  /** `[a-zA-Z0-9_-]`. */
  predicate IsNameChar(c: char) {
    IsLower(c) || IsUpper(c) || IsDigit(c) || c == '_' || c == '-'
  }

  /** A player name once trimmed: 2 to 20 characters, each a letter, a digit, `_` or `-`. */
  predicate IsPlayerName(s: string) {
    var name := Trim(s);
    2 <= |name| <= 20 && forall k :: 0 <= k < |name| ==> IsNameChar(name[k])
  }

  /** `rules.playerName`. */
  function PlayerNameRule(): (r: Rule)
    ensures r.message == "Player name must be 2-20 characters, letters, numbers, _ and - only"
    ensures forall s :: r.test(Str(s)) <==> IsPlayerName(s)
  {
    Rule(v => IsPlayerName(ToText(v)), "Player name must be 2-20 characters, letters, numbers, _ and - only")
  }

  /**
   * Whether `<[^>]*>` finds a match: trying each start in turn, a match
   * starts at a `<` that some later `>` closes.
   */
  function ContainsTag(s: string): bool
    decreases |s|
  {
    if |s| == 0 then false
    else if s[0] == '<' && '>' in s[1..] then true
    else ContainsTag(s[1..])
  }

  /** A tag is found exactly when some `<` comes before some `>`. */
  lemma {:induction false} ContainsTagMeaning(s: string)
    ensures ContainsTag(s) <==> exists i, j :: 0 <= i < j < |s| && s[i] == '<' && s[j] == '>'
    decreases |s|
  {
    if |s| > 0 {
      ContainsTagMeaning(s[1..]);
      if s[0] == '<' && '>' in s[1..] {
        var j :| 0 <= j < |s[1..]| && s[1..][j] == '>';
        assert s[0] == '<' && s[j + 1] == '>';
      } else if ContainsTag(s[1..]) {
        var i, j :| 0 <= i < j < |s[1..]| && s[1..][i] == '<' && s[1..][j] == '>';
        assert s[i + 1] == '<' && s[j + 1] == '>';
      } else {
        forall i, j | 0 <= i < j < |s| && s[i] == '<' ensures s[j] != '>' {
          assert s[j] == s[1..][j - 1];
          if i > 0 {
            assert s[i] == s[1..][i - 1];
          }
        }
      }
    }
  }

  /** `rules.noHtml`. */
  function NoHtml(): (r: Rule)
    ensures r.message == "HTML tags are not allowed"
    ensures forall v :: r.test(v) <==> !ContainsTag(ToText(v))
  {
    Rule(v => !ContainsTag(ToText(v)), "HTML tags are not allowed")
  }

  /** Text without `<` never holds a tag. */
  lemma {:induction false} NoOpenNoTag(s: string)
    requires '<' !in s
    ensures !ContainsTag(s)
  {
    ContainsTagMeaning(s);
    forall i | 0 <= i < |s| ensures s[i] != '<' {
      assert s[i] in s;
    }
  }

  // ---------------------------------------------------------------------
  // Running rules

  /** The outcome of `validate`: the first failing rule's message, or valid when every rule passes. */
  function Verdict(v: Value, rules: seq<Rule>): (r: ValidationResult)
    ensures r.valid <==> r.error.None?
    decreases |rules|
  {
    if |rules| == 0 then ValidationResult(true, None)
    else if !rules[0].test(v) then ValidationResult(false, Some(rules[0].message))
    else Verdict(v, rules[1..])
  }

  /** A value is valid exactly when it passes every rule; otherwise the message is the first failing rule's. */
  lemma {:induction false} VerdictMeaning(v: Value, rules: seq<Rule>)
    ensures Verdict(v, rules).valid <==> forall i :: 0 <= i < |rules| ==> rules[i].test(v)
    ensures Verdict(v, rules).valid ==> Verdict(v, rules).error == None
    ensures !Verdict(v, rules).valid ==>
      exists i :: 0 <= i < |rules| && !rules[i].test(v)
        && (forall k :: 0 <= k < i ==> rules[k].test(v))
        && Verdict(v, rules).error == Some(rules[i].message)
    decreases |rules|
  {
    if |rules| > 0 && rules[0].test(v) {
      VerdictMeaning(v, rules[1..]);
      if !Verdict(v, rules).valid {
        var i :| 0 <= i < |rules[1..]| && !rules[1..][i].test(v)
          && (forall k :: 0 <= k < i ==> rules[1..][k].test(v))
          && Verdict(v, rules[1..]).error == Some(rules[1..][i].message);
        assert forall k :: 0 <= k < i + 1 ==> rules[k].test(v) by {
          forall k | 0 <= k < i + 1 ensures rules[k].test(v) {
            if k > 0 {
              assert rules[k] == rules[1..][k - 1];
            }
          }
        }
        assert rules[i + 1] == rules[1..][i];
      } else {
        forall i | 0 <= i < |rules| ensures rules[i].test(v) {
          if i > 0 {
            assert rules[i] == rules[1..][i - 1];
          }
        }
      }
    }
  }

  /** `validate`: the rules in order, stopping at the first that fails. */
  method Validate(v: Value, rules: seq<Rule>) returns (result: ValidationResult)
    ensures result == Verdict(v, rules)
  {
    for i := 0 to |rules|
      invariant Verdict(v, rules[i..]) == Verdict(v, rules)
    {
      assert rules[i..][1..] == rules[i + 1..];
      if !rules[i].test(v) {
        return ValidationResult(false, Some(rules[i].message));
      }
    }
    assert rules[|rules|..] == [];
    result := ValidationResult(true, None);
  }

  /** Three rules in a row. */
  lemma {:induction false} VerdictOfThree(v: Value, a: Rule, b: Rule, c: Rule)
    ensures Verdict(v, [a, b, c]) ==
      if !a.test(v) then ValidationResult(false, Some(a.message))
      else if !b.test(v) then ValidationResult(false, Some(b.message))
      else if !c.test(v) then ValidationResult(false, Some(c.message))
      else ValidationResult(true, None)
  {
    assert [c][1..] == [];
    assert Verdict(v, [c]) == if !c.test(v) then ValidationResult(false, Some(c.message)) else Verdict(v, []);
    assert [b, c][1..] == [c];
    assert Verdict(v, [b, c]) == if !b.test(v) then ValidationResult(false, Some(b.message)) else Verdict(v, [c]);
    assert [a, b, c][1..] == [b, c];
  }

  function GameIdRules(): seq<Rule> {
    [Required("Game ID is required"), GameIdRule(), NoHtml()]
  }

  /** Digits are not white space and hold no tag. */
  lemma {:induction false} GameIdShape(s: string)
    requires IsGameId(s)
    ensures !IsBlank(Str(s)) && !ContainsTag(s)
  {
    assert !IsJsSpace(s[0]);
    forall k | 0 <= k < |s| ensures s[k] != '<' {
      assert IsDigit(s[k]);
    }
    NoOpenNoTag(s);
  }

  /**
   * `validateGameId`: valid exactly for four digits. A blank value is
   * reported as missing and anything else as malformed; the HTML rule
   * never decides, since four digits hold no tag.
   */
  method ValidateGameId(v: Value) returns (result: ValidationResult)
    ensures result.valid <==> v.Str? && IsGameId(v.s)
    ensures result.valid ==> result.error == None
    ensures !result.valid ==>
      result.error == Some(if IsBlank(v) then "Game ID is required" else "Game ID must be exactly 4 digits")
  {
    result := Validate(v, GameIdRules());
    var rules := GameIdRules();
    VerdictOfThree(v, rules[0], rules[1], rules[2]);
    if v.Str? && IsGameId(v.s) {
      GameIdShape(v.s);
    } else if !IsBlank(v) {
      assert ToText(v) == v.s;
      assert !rules[1].test(v);
    }
  }

  /**
   * The player-name test measures `name.length` in UTF-16 code units before
   * its pattern check; since the pattern admits only ASCII, that length is
   * the number of characters whenever the whole test can pass.
   */
  lemma {:induction false} PlayerNameLengthInUnits(s: string)
    ensures IsPlayerName(s) <==>
      var name := Trim(s);
      2 <= Utf16Length(name) <= 20 && forall k :: 0 <= k < |name| ==> IsNameChar(name[k])
  {
    var name := Trim(s);
    if forall k :: 0 <= k < |name| ==> IsNameChar(name[k]) {
      Utf16LengthBmp(name);
    }
  }

  /** `minLength(2)` accepts a single emoji, which is two UTF-16 code units; `maxLength(1)` rejects it. */
  lemma LengthCountsCodeUnits()
    ensures MinLength(2, None).test(Str("\U{1F600}"))
    ensures !MaxLength(1, None).test(Str("\U{1F600}"))
  {
    Utf16LengthAstral('\U{1F600}');
    assert ToText(Str("\U{1F600}")) == "\U{1F600}";
  }

  function PlayerNameRules(): seq<Rule> {
    [Required("Player name is required"), PlayerNameRule(), NoHtml()]
  }

  /** A player name's text is not blank and, being name characters around white space, holds no tag. */
  lemma {:induction false} PlayerNameShape(s: string)
    requires IsPlayerName(s)
    ensures !IsBlank(Str(s)) && !ContainsTag(s)
  {
    var name := Trim(s);
    var i, j :| 0 <= i <= j <= |s| && name == s[i..j]
      && (forall k :: 0 <= k < i ==> IsJsSpace(s[k]))
      && (forall k :: j <= k < |s| ==> IsJsSpace(s[k]));
    assert IsNameChar(name[0]) && s[i] == name[0];
    assert !IsJsSpace(s[i]);
    forall k | 0 <= k < |s| ensures s[k] != '<' {
      if i <= k < j {
        assert s[k] == name[k - i] && IsNameChar(name[k - i]);
      } else {
        assert IsJsSpace(s[k]);
      }
    }
    NoOpenNoTag(s);
  }

  /**
   * `validatePlayerName`: valid exactly for a well-formed name. A blank
   * value is reported as missing and anything else as malformed; the
   * HTML rule never decides.
   */
  method ValidatePlayerName(v: Value) returns (result: ValidationResult)
    ensures result.valid <==> v.Str? && IsPlayerName(v.s)
    ensures result.valid ==> result.error == None
    ensures !result.valid ==>
      result.error == Some(if IsBlank(v) then "Player name is required"
                           else "Player name must be 2-20 characters, letters, numbers, _ and - only")
  {
    result := Validate(v, PlayerNameRules());
    var rules := PlayerNameRules();
    VerdictOfThree(v, rules[0], rules[1], rules[2]);
    if v.Str? && IsPlayerName(v.s) {
      PlayerNameShape(v.s);
    } else if !IsBlank(v) {
      assert ToText(v) == v.s;
      assert !rules[1].test(v);
    }
  }

  /** Checking a length window with the two length rules: valid exactly inside it, and a too-short text fails on the first. */
  lemma {:induction false} LengthWindow(v: Value, lo: int, hi: int, tooShort: Option<string>, tooLong: Option<string>)
    ensures var r := Verdict(v, [MinLength(lo, tooShort), MaxLength(hi, tooLong)]);
      var n := Utf16Length(ToText(v));
      (r.valid <==> lo <= n <= hi)
      && (n < lo ==> r.error == Some(MinLength(lo, tooShort).message))
      && (lo <= n && hi < n ==> r.error == Some(MaxLength(hi, tooLong).message))
  {
    var rules := [MinLength(lo, tooShort), MaxLength(hi, tooLong)];
    VerdictMeaning(v, rules);
    assert rules[1..] == [MaxLength(hi, tooLong)];
    assert rules[1..][1..] == [];
    assert Verdict(v, rules[1..][1..]).valid;
  }

  // ---------------------------------------------------------------------
  // Errors per field

  /** The error record: for each field that failed its last check, that check's message. */
  class Validator {
    var errors: Entries<string>

    ghost predicate Valid()
      reads this
    {
      WellFormed(errors)
    }

    constructor()
      ensures Valid() && errors == []
    {
      errors := [];
    }

    /**
     * `validateField`: runs the rules and records the outcome, setting the
     * field's message on failure and deleting it on success; every other
     * field keeps its message.
     */
    method ValidateField(field: string, v: Value, rules: seq<Rule>) returns (valid: bool)
      requires Valid()
      modifies this
      ensures Valid()
      ensures valid == Verdict(v, rules).valid
      ensures valid <==> forall i :: 0 <= i < |rules| ==> rules[i].test(v)
      ensures GetError(field) == Verdict(v, rules).error
      ensures forall j :: j != field ==> GetError(j) == Get(old(errors), j)
      ensures errors == if valid then Remove(old(errors), field)
                        else Put(old(errors), field, Verdict(v, rules).error.value)
    {
      var result := Validate(v, rules);
      VerdictMeaning(v, rules);
      if result.valid {
        RemoveWellFormed(errors, field);
        forall j ensures Get(Remove(errors, field), j) == if j == field then None else Get(errors, j) {
          GetRemove(errors, field, j);
        }
        errors := Remove(errors, field);
      } else {
        PutWellFormed(errors, field, result.error.value);
        forall j ensures Get(Put(errors, field, result.error.value), j)
          == if j == field then result.error else Get(errors, j) {
          GetPut(errors, field, result.error.value, j);
        }
        errors := Put(errors, field, result.error.value);
      }
      valid := result.valid;
    }

    /** `hasErrors`: some field has a message. */
    function HasErrors(): (b: bool)
      reads this
      ensures b <==> exists j :: GetError(j).Some?
    {
      if |errors| > 0 then
        assert Keys(errors)[0] == errors[0].0;
        assert GetError(errors[0].0).Some?;
        true
      else
        assert forall j :: GetError(j).None?;
        false
    }

    /** `clearErrors`. */
    method ClearErrors()
      modifies this
      ensures Valid() && errors == []
      ensures !HasErrors()
    {
      errors := [];
    }

    /** `getError`: the field's message, if it has one. */
    function GetError(field: string): (r: Option<string>)
      reads this
      ensures r.Some? <==> field in Keys(errors)
    {
      Get(errors, field)
    }
  }

  // ---------------------------------------------------------------------
  // Sanitizing

  /** The HTML entity for `<`, `>`, `&`, `'` and `"`; every other character stands for itself. */
  function EscapeChar(c: char): (e: string)
    ensures |e| > 0
    ensures '<' !in e && '>' !in e
    ensures IsJsSpace(e[0]) <==> IsJsSpace(c)
    ensures IsJsSpace(e[|e| - 1]) <==> IsJsSpace(c)
    ensures forall k :: 0 <= k < |e| && IsJsSpace(e[k]) ==> e == [c]
  {
    match c
    case '<' => "&lt;"
    case '>' => "&gt;"
    case '&' => "&amp;"
    case '\'' => "&#39;"
    case '"' => "&quot;"
    case _ => [c]
  }

  /** Every character replaced by its entity. */
  function Escape(s: string): (e: string)
    ensures '<' !in e && '>' !in e
    ensures |e| > 0 <==> |s| > 0
    ensures |s| > 0 ==> (IsJsSpace(e[0]) <==> IsJsSpace(s[0]))
    ensures |s| > 0 ==> (IsJsSpace(e[|e| - 1]) <==> IsJsSpace(s[|s| - 1]))
    decreases |s|
  {
    if |s| == 0 then "" else EscapeChar(s[0]) + Escape(s[1..])
  }

  /** Decoding the five entities back to their characters. */
  function Unescape(e: string): string
    decreases |e|
  {
    if |e| >= 4 && e[..4] == "&lt;" then "<" + Unescape(e[4..])
    else if |e| >= 4 && e[..4] == "&gt;" then ">" + Unescape(e[4..])
    else if |e| >= 5 && e[..5] == "&amp;" then "&" + Unescape(e[5..])
    else if |e| >= 5 && e[..5] == "&#39;" then "'" + Unescape(e[5..])
    else if |e| >= 6 && e[..6] == "&quot;" then "\"" + Unescape(e[6..])
    else if |e| == 0 then ""
    else [e[0]] + Unescape(e[1..])
  }

  /** Decoding one escaped character. */
  lemma {:induction false} UnescapeChar(c: char, rest: string)
    ensures Unescape(EscapeChar(c) + rest) == [c] + Unescape(rest)
  {
    var e := EscapeChar(c) + rest;
    var n := |EscapeChar(c)|;
    assert e[..n] == EscapeChar(c) && e[n..] == rest;
    match c
    case '<' =>
    case '>' =>
      assert e[..4][1] == 'g';
    case '&' =>
      assert e[..4][1] == 'a' && e[..5][1] == 'a';
    case '\'' =>
      assert e[..4][1] == '#' && e[..5][1] == '#';
    case '"' =>
      assert e[..4][1] == 'q' && e[..5][1] == 'q';
    case _ =>
      assert e[0] == c && e[1..] == rest;
      assert |e| >= 4 ==> e[..4][0] == c;
      assert |e| >= 5 ==> e[..5][0] == c;
      assert |e| >= 6 ==> e[..6][0] == c;
  }

  /** Escaping loses nothing: decoding gives the original text back. */
  lemma {:induction false} UnescapeEscape(s: string)
    ensures Unescape(Escape(s)) == s
    decreases |s|
  {
    if |s| > 0 {
      UnescapeEscape(s[1..]);
      UnescapeChar(s[0], Escape(s[1..]));
      assert [s[0]] + s[1..] == s;
    }
  }

  /** Escaped text holds no white space but the original's, each character standing for itself. */
  lemma {:induction false} EscapeSpaces(s: string, k: nat)
    requires k < |Escape(s)| && IsJsSpace(Escape(s)[k])
    ensures exists i :: 0 <= i < |s| && s[i] == Escape(s)[k]
    decreases |s|
  {
    var e := EscapeChar(s[0]);
    if k < |e| {
      assert Escape(s)[k] == e[k];
      assert e == [s[0]];
    } else {
      assert Escape(s)[k] == Escape(s[1..])[k - |e|];
      EscapeSpaces(s[1..], k - |e|);
      var i :| 0 <= i < |s[1..]| && s[1..][i] == Escape(s)[k];
      assert s[i + 1] == s[1..][i];
    }
  }

  /** `replace(/\s+/g, ' ')`: each run of white space becomes one space. */
  function Collapse(s: string): (r: string)
    ensures |r| <= |s|
    ensures |r| > 0 <==> |s| > 0
    ensures |s| > 0 ==> (IsJsSpace(r[0]) <==> IsJsSpace(s[0]))
    ensures |s| > 0 && !IsJsSpace(s[0]) ==> r[0] == s[0]
    ensures |s| > 0 && !IsJsSpace(s[|s| - 1]) ==> !IsJsSpace(r[|r| - 1])
    decreases |s|
  {
    if |s| == 0 then ""
    else if IsJsSpace(s[0]) then " " + Collapse(s[SkipSpaces(s, 0)..])
    else [s[0]] + Collapse(s[1..])
  }

  /** Collapsing `s` is its first character, or a space for its leading run, followed by the collapse of the rest. */
  lemma {:induction false} CollapseCons(s: string) returns (j: nat)
    requires |s| > 0
    ensures 0 < j <= |s|
    ensures j < |s| && IsJsSpace(s[0]) ==> !IsJsSpace(s[j])
    ensures Collapse(s) == [if IsJsSpace(s[0]) then ' ' else s[0]] + Collapse(s[j..])
  {
    j := if IsJsSpace(s[0]) then SkipSpaces(s, 0) else 1;
  }

  /** After collapsing, every white-space character is a plain space. */
  lemma {:induction false} CollapseSpaces(s: string)
    ensures var r := Collapse(s); forall k :: 0 <= k < |r| && IsJsSpace(r[k]) ==> r[k] == ' '
    decreases |s|
  {
    if |s| > 0 {
      var j := CollapseCons(s);
      CollapseSpaces(s[j..]);
      var r := Collapse(s);
      forall k | 0 < k < |r| ensures r[k] == Collapse(s[j..])[k - 1] {
      }
    }
  }

  /** After collapsing, no two white-space characters stand side by side. */
  lemma {:induction false} CollapseSingle(s: string)
    ensures var r := Collapse(s); forall k :: 0 <= k < |r| - 1 ==> !(IsJsSpace(r[k]) && IsJsSpace(r[k + 1]))
    decreases |s|
  {
    if |s| > 0 {
      var j := CollapseCons(s);
      var rest := Collapse(s[j..]);
      CollapseSingle(s[j..]);
      var r := Collapse(s);
      assert |rest| > 0 && IsJsSpace(r[0]) ==> !IsJsSpace(rest[0]);
      forall k | 0 < k < |r| ensures r[k] == rest[k - 1] {
      }
    }
  }

  /** Collapsing keeps only characters of the input besides the spaces it writes. */
  lemma {:induction false} CollapseKeeps(s: string)
    ensures forall c :: c in Collapse(s) && !IsJsSpace(c) ==> c in s
    decreases |s|
  {
    if |s| > 0 {
      var j := CollapseCons(s);
      var rest := Collapse(s[j..]);
      CollapseKeeps(s[j..]);
      forall c | c in Collapse(s) && !IsJsSpace(c) ensures c in s {
        if c != Collapse(s)[0] {
          assert c in rest;
          var k :| 0 <= k < |s[j..]| && s[j..][k] == c;
          assert s[j + k] == c;
        }
      }
    }
  }

  /** `sanitizeInput`: trimmed, escaped, then white space collapsed. */
  function Sanitize(s: string): string {
    Collapse(Escape(Trim(s)))
  }

  /** Sanitized text holds no `<` or `>`, so the HTML rule accepts it. */
  lemma {:induction false} SanitizeNoTag(s: string)
    ensures '<' !in Sanitize(s) && '>' !in Sanitize(s)
    ensures NoHtml().test(Str(Sanitize(s)))
  {
    var e := Escape(Trim(s));
    CollapseKeeps(e);
    NoOpenNoTag(Sanitize(s));
  }

  /** Sanitized text neither starts nor ends with white space, and its only white space is single spaces. */
  lemma {:induction false} SanitizeSpaces(s: string)
    ensures var r := Sanitize(s);
      (|r| > 0 ==> !IsJsSpace(r[0]) && !IsJsSpace(r[|r| - 1]))
      && (forall k :: 0 <= k < |r| && IsJsSpace(r[k]) ==> r[k] == ' ')
      && (forall k :: 0 <= k < |r| - 1 ==> !(IsJsSpace(r[k]) && IsJsSpace(r[k + 1])))
  {
    var e := Escape(Trim(s));
    assert Sanitize(s) == Collapse(e);
    CollapseSpaces(e);
    CollapseSingle(e);
  }

  /** Collapsing text without white space changes nothing. */
  lemma {:induction false} CollapseNoSpace(s: string)
    requires forall k :: 0 <= k < |s| ==> !IsJsSpace(s[k])
    ensures Collapse(s) == s
    decreases |s|
  {
    if |s| > 0 {
      CollapseNoSpace(s[1..]);
      assert [s[0]] + s[1..] == s;
    }
  }

  /** For input with no white space inside its trimmed text, decoding the sanitized text gives that text back. */
  lemma {:induction false} SanitizeRoundTrip(s: string)
    requires forall k :: 0 <= k < |Trim(s)| ==> !IsJsSpace(Trim(s)[k])
    ensures Unescape(Sanitize(s)) == Trim(s)
  {
    var t := Trim(s);
    forall k | 0 <= k < |Escape(t)| ensures !IsJsSpace(Escape(t)[k]) {
      if IsJsSpace(Escape(t)[k]) {
        EscapeSpaces(t, k);
      }
    }
    CollapseNoSpace(Escape(t));
    UnescapeEscape(t);
  }
  /** Text that neither starts nor ends with white space trims to itself. */
  lemma {:induction false} TrimUnspaced(s: string)
    requires |s| > 0 ==> !IsJsSpace(s[0]) && !IsJsSpace(s[|s| - 1])
    ensures Trim(s) == s
  {
    assert SkipSpaces(s, 0) == 0;
    assert SkipSpacesBack(s, 0, |s|) == |s|;
  }

  /** Escaping works character by character, so it distributes over concatenation. */
  lemma {:induction false} EscapeAppend(a: string, b: string)
    ensures Escape(a + b) == Escape(a) + Escape(b)
    decreases |a|
  {
    if |a| == 0 {
      assert a + b == b;
    } else {
      var ab := a + b;
      assert ab[0] == a[0] && ab[1..] == a[1..] + b;
      calc {
        Escape(ab);
        EscapeChar(a[0]) + Escape(a[1..] + b);
        { EscapeAppend(a[1..], b); }
        EscapeChar(a[0]) + (Escape(a[1..]) + Escape(b));
        (EscapeChar(a[0]) + Escape(a[1..])) + Escape(b);
      }
    }
  }

  /** A character that is not one of the five escaped ones. */
  predicate Plain(c: char) {
    c != '<' && c != '>' && c != '&' && c != '\'' && c != '"'
  }

  /** Text without any of the five escaped characters escapes to itself. */
  lemma {:induction false} EscapePlain(s: string)
    requires forall k :: 0 <= k < |s| ==> Plain(s[k])
    ensures Escape(s) == s
    decreases |s|
  {
    if |s| > 0 {
      assert Plain(s[0]);
      assert EscapeChar(s[0]) == [s[0]];
      EscapePlain(s[1..]);
      assert [s[0]] + s[1..] == s;
    }
  }

  /** The game ids of the client's unit tests: four digits pass; three, five or letters fail. */
  lemma {:induction false} GameIdSamples()
    ensures IsGameId("1234")
    ensures !IsGameId("123") && !IsGameId("12345") && !IsGameId("abcd")
  {
    assert !IsDigit("abcd"[0]);
  }

  /** The accepted player names of the client's unit tests. */
  lemma {:induction false} PlayerNameSamples()
    ensures IsPlayerName("Alice") && IsPlayerName("Bob123") && IsPlayerName("test_user")
  {
    NameSample("Alice");
    NameSample("Bob123");
    NameSample("test_user");
  }

  /** The rejected player names of the client's unit tests: too short, empty, too long. */
  lemma {:induction false} PlayerNameRejects()
    ensures !IsPlayerName("a") && !IsPlayerName("")
    ensures !IsPlayerName("very_long_username_that_exceeds_limit")
  {
    TrimUnspaced("a");
    TrimUnspaced("");
    var long := "very_long_username_that_exceeds_limit";
    assert !IsJsSpace(long[0]) && !IsJsSpace(long[|long| - 1]);
    TrimUnspaced(long);
  }

  /** A short run of name characters is a player name. */
  lemma {:induction false} NameSample(s: string)
    requires 2 <= |s| <= 20 && forall k :: 0 <= k < |s| ==> IsNameChar(s[k])
    ensures IsPlayerName(s)
  {
    assert !IsJsSpace(s[0]) by { assert IsNameChar(s[0]); }
    assert !IsJsSpace(s[|s| - 1]) by { assert IsNameChar(s[|s| - 1]); }
    TrimUnspaced(s);
  }

  /** The sanitizer tests of the client: outer white space is trimmed away. */
  lemma {:induction false} SanitizeTrims()
    ensures Sanitize("  test  ") == "test"
  {
    TrimPadded();
    EscapePlain("test");
    CollapseNoSpace("test");
  }

  /** Two spaces on each side are trimmed. */
  lemma {:induction false} TrimPadded()
    ensures Trim("  test  ") == "test"
  {
    var padded := "  test  ";
    assert SkipSpaces(padded, 0) == 2 by {
      assert SkipSpaces(padded, 0) == SkipSpaces(padded, 1) == SkipSpaces(padded, 2);
    }
    assert SkipSpacesBack(padded, 2, 8) == 6 by {
      assert SkipSpacesBack(padded, 2, 8) == SkipSpacesBack(padded, 2, 7) == SkipSpacesBack(padded, 2, 6);
    }
    assert padded[2..6] == "test";
  }
}
