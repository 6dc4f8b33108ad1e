/**
 * public/js/main.js: the browser script's form check, e-mail shape, tag-field
 * handlers and character counter, without the page they act on.
 */
module ClientHelpers {
  import opened Wrappers
  import opened Text

  /** A character the regex class `[^\s@]` admits. */
  predicate EmailChar(c: char) {
    !IsSpace(c) && c != '@'
  }

  /** One `[^\s@]+` run. */
  predicate EmailRun(s: string) {
    s != "" && forall k :: 0 <= k < |s| ==> EmailChar(s[k])
  }

  /**
   * `isValidEmail`: the whole string matches `^[^\s@]+@[^\s@]+\.[^\s@]+$`, that
   * is, it is a run, `@`, a run, `.`, a run, for some choice of the `@` at `i`
   * and the `.` at `j`.
   */
  predicate IsValidEmail(s: string) {
    exists i, j :: 0 < i < |s| && i + 1 < j < |s| - 1 && s[i] == '@' && s[j] == '.' &&
                   EmailRun(s[..i]) && EmailRun(s[i + 1..j]) && EmailRun(s[j + 1..])
  }

  /** A domain with a dot that is neither its first nor its last character. */
  predicate DotInside(d: string) {
    exists t :: 0 < t < |d| - 1 && d[t] == '.'
  }

  /**
   * The same shape said plainly: no white space, exactly one `@`, something
   * before it, and a dot strictly inside what follows it.
   */
  predicate EmailShape(s: string) {
    && NoSpace(s)
    && exists i :: 0 < i < |s| && s[i] == '@' && (forall k :: 0 <= k < |s| && k != i ==> s[k] != '@') &&
                   DotInside(s[i + 1..])
  }

  /** The regex accepts exactly the strings of the plain shape. */
  lemma IsValidEmailIff(s: string)
    ensures IsValidEmail(s) <==> EmailShape(s)
  {
    if IsValidEmail(s) {
      RegexGivesShape(s);
    }
    if EmailShape(s) {
      ShapeGivesRegex(s);
    }
  }

  lemma {:induction false} RegexGivesShape(s: string)
    requires IsValidEmail(s)
    ensures EmailShape(s)
  {
    var i, j :| 0 < i < |s| && i + 1 < j < |s| - 1 && s[i] == '@' && s[j] == '.' &&
                EmailRun(s[..i]) && EmailRun(s[i + 1..j]) && EmailRun(s[j + 1..]);
    forall k | 0 <= k < |s| && k != i
      ensures EmailChar(s[k])
    {
      if k < i {
        assert s[k] == s[..i][k];
      } else if k < j {
        assert s[k] == s[i + 1..j][k - i - 1];
      } else if k > j {
        assert s[k] == s[j + 1..][k - j - 1];
      }
    }
    assert forall k :: 0 <= k < |s| ==> !IsSpace(s[k]) by {
      forall k | 0 <= k < |s|
        ensures !IsSpace(s[k])
      {
        if k != i {
          assert EmailChar(s[k]);
        }
      }
    }
    assert s[i + 1..][j - i - 1] == '.';
    assert DotInside(s[i + 1..]);
  }

  lemma {:induction false} ShapeGivesRegex(s: string)
    requires EmailShape(s)
    ensures IsValidEmail(s)
  {
    var i :| 0 < i < |s| && s[i] == '@' && (forall k :: 0 <= k < |s| && k != i ==> s[k] != '@') &&
             DotInside(s[i + 1..]);
    var d := s[i + 1..];
    var t :| 0 < t < |d| - 1 && d[t] == '.';
    var j := i + 1 + t;
    assert s[j] == '.';
    forall k | 0 <= k < |s| && k != i
      ensures EmailChar(s[k])
    {
      assert !IsSpace(s[k]);
    }
    assert EmailRun(s[..i]) by {
      forall k | 0 <= k < i ensures EmailChar(s[..i][k]) {
        assert s[..i][k] == s[k];
      }
    }
    var b := s[i + 1..j];
    assert EmailRun(b) by {
      forall k | 0 <= k < |b| ensures EmailChar(b[k]) {
        assert b[k] == s[i + 1 + k];
      }
    }
    var c := s[j + 1..];
    assert EmailRun(c) by {
      forall k | 0 <= k < |c| ensures EmailChar(c[k]) {
        assert c[k] == s[j + 1 + k];
      }
    }
  }

  /** The input types the form check treats apart. */
  datatype InputType = PlainInput | EmailInput | PasswordInput

  /** A form control: its `type`, whether it carries `required`, and its current value. */
  datatype Field = Field(inputType: InputType, required: bool, value: string)

  const MinPasswordLength := 6

  predicate MissingRequired(f: Field) {
    f.required && Trim(f.value) == ""
  }

  predicate BadEmail(f: Field) {
    f.inputType == EmailInput && f.value != "" && !IsValidEmail(f.value)
  }

  predicate ShortPassword(f: Field) {
    f.inputType == PasswordInput && f.value != "" && |f.value| < MinPasswordLength
  }

  /** A form passes when no field is an empty required one, a malformed e-mail, or a short password. */
  predicate FormValid(fields: seq<Field>) {
    forall k :: 0 <= k < |fields| ==> !MissingRequired(fields[k]) && !BadEmail(fields[k]) && !ShortPassword(fields[k])
  }

  /**
   * `validateForm`: three passes over the form, over the required fields, the
   * e-mail fields and the password fields, each clearing `isValid` on a failure.
   */
  method ValidateForm(fields: seq<Field>) returns (isValid: bool)
    ensures isValid <==> FormValid(fields)
  {
    isValid := true;
    var i := 0;
    while i < |fields|
      invariant 0 <= i <= |fields|
      invariant isValid <==> forall k :: 0 <= k < i ==> !MissingRequired(fields[k])
    {
      if MissingRequired(fields[i]) {
        isValid := false;
      }
      i := i + 1;
    }
    i := 0;
    while i < |fields|
      invariant 0 <= i <= |fields|
      invariant isValid <==> (forall k :: 0 <= k < |fields| ==> !MissingRequired(fields[k])) &&
                             (forall k :: 0 <= k < i ==> !BadEmail(fields[k]))
    {
      if BadEmail(fields[i]) {
        isValid := false;
      }
      i := i + 1;
    }
    i := 0;
    while i < |fields|
      invariant 0 <= i <= |fields|
      invariant isValid <==> (forall k :: 0 <= k < |fields| ==> !MissingRequired(fields[k])) &&
                             (forall k :: 0 <= k < |fields| ==> !BadEmail(fields[k])) &&
                             (forall k :: 0 <= k < i ==> !ShortPassword(fields[k]))
    {
      if ShortPassword(fields[i]) {
        isValid := false;
      }
      i := i + 1;
    }
  }

  /** The tags the field holds: its comma-separated pieces, trimmed, empty ones dropped. */
  function TagList(value: string): (ts: seq<string>)
    ensures PlainTags(ts)
    ensures forall t :: t in ts ==> t in TrimAll(Split(value, ','))
    ensures forall p :: p in TrimAll(Split(value, ',')) && p != "" ==> p in ts
  {
    TrimmedPiecesFree(value);
    DropEmpty(TrimAll(Split(value, ',')))
  }

  /** The trimmed pieces of a split at commas that are kept are non-empty, trimmed and comma-free. */
  lemma {:induction false} TrimmedPiecesFree(value: string)
    ensures PlainTags(DropEmpty(TrimAll(Split(value, ','))))
  {
    var pieces := Split(value, ',');
    SplitPiecesFree(value, ',');
    TrimmedCommaFree(pieces);
    DropEmptyPlain(TrimAll(pieces));
  }

  /** Trimming comma-free pieces gives trimmed, comma-free pieces. */
  lemma TrimmedCommaFree(pieces: seq<string>)
    requires forall k :: 0 <= k < |pieces| ==> ',' !in pieces[k]
    ensures forall k :: 0 <= k < |pieces| ==> Trimmed(TrimAll(pieces)[k]) && ',' !in TrimAll(pieces)[k]
  {
    forall k | 0 <= k < |pieces|
      ensures ',' !in TrimAll(pieces)[k]
    {
      TrimKeepsOut(pieces[k], ',');
    }
  }

  /** Dropping the empty pieces of trimmed, comma-free pieces leaves plain tags. */
  lemma {:induction false} DropEmptyPlain(ps: seq<string>)
    requires forall k :: 0 <= k < |ps| ==> Trimmed(ps[k]) && ',' !in ps[k]
    ensures PlainTags(DropEmpty(ps))
  {
    if ps != [] {
      DropEmptyPlain(ps[1..]);
    }
  }

  /** The field's value rewritten by the input handler: its tags joined by `', '`. */
  function NormalizedTags(value: string): string {
    Join(TagList(value), ", ")
  }

  /**
   * Normalising keeps the tags: the normalised value holds the same tags, and
   * when it is not empty, every comma-separated piece in it is a non-empty tag.
   */
  lemma {:induction false} NormalizedKeepsTags(value: string)
    ensures TagList(NormalizedTags(value)) == TagList(value)
    ensures NormalizedTags(value) != "" ==> forall p :: p in TrimAll(Split(NormalizedTags(value), ',')) ==> p != ""
  {
    var ts := TagList(value);
    if ts == [] {
      assert NormalizedTags(value) == "";
      assert Split("", ',') == [""];
      assert TrimAll([""]) == [""];
      assert TagList("") == [];
    } else {
      TrimSplitCommaJoin(ts);
      DropEmptyOfNonEmpty(ts);
    }
  }

  /** Normalising twice is normalising once. */
  lemma NormalizeIdempotent(value: string)
    ensures NormalizedTags(NormalizedTags(value)) == NormalizedTags(value)
  {
    NormalizedKeepsTags(value);
  }

  /** What Enter does to the field: a trimmed non-empty value not ending in `,` gets `', '` appended. */
  function EnterSuffix(value: string): (r: string)
    ensures OpenEnded(Trim(value)) ==> r == Trim(value) + ", "
    ensures !OpenEnded(Trim(value)) ==> r == value
  {
    if OpenEnded(Trim(value)) then Trim(value) + ", " else value
  }

  /** A value that is not empty and does not end in a comma. */
  predicate OpenEnded(t: string) {
    t != "" && t[|t| - 1] != ','
  }

  /** A trimmed value with `', '` appended trims to the value with `','` appended. */
  lemma {:induction false} TrimCommaSpace(t: string)
    requires t != "" && Trimmed(t)
    ensures Trim(t + ", ") == t + ","
  {
    var u := t + ", ";
    assert u[|u| - 1] == ' ';
    assert u[..|u| - 1] == t + ",";
    assert TrimEnd(u) == TrimEnd(t + ",");
    assert TrimEnd(t + ",") == t + ",";
    assert (t + ",")[0] == t[0];
  }

  /** Pressing Enter a second time changes nothing: the value now ends with a comma. */
  lemma {:induction false} EnterIdempotent(value: string)
    ensures EnterSuffix(EnterSuffix(value)) == EnterSuffix(value)
  {
    var t := Trim(value);
    if OpenEnded(t) {
      TrimCommaSpace(t);
    }
  }

  /** The tag field and its two listeners. */
  class TagInput {
    var value: string

    constructor (value: string)
      ensures this.value == value
    {
      this.value := value;
    }

    /** The `input` listener: rewrites the value only when it holds a comma. */
    method OnInput()
      modifies this
      ensures ',' in old(value) ==> value == NormalizedTags(old(value))
      ensures ',' !in old(value) ==> value == old(value)
    {
      if ',' in value {
        value := NormalizedTags(value);
      }
    }

    /** The `keydown` listener: only Enter acts. */
    method OnKeyDown(key: string)
      modifies this
      ensures key == "Enter" ==> value == EnterSuffix(old(value))
      ensures key != "Enter" ==> value == old(value)
    {
      if key == "Enter" {
        var t := Trim(value);
        if t != "" && t[|t| - 1] != ',' {
          value := t + ", ";
        }
      }
    }
  }

  /** A second `input` event right after the first leaves the value as it is. */
  lemma InputSettles(value: string)
    ensures var once := if ',' in value then NormalizedTags(value) else value;
            (if ',' in once then NormalizedTags(once) else once) == once
  {
    if ',' in value {
      NormalizeIdempotent(value);
    }
  }

  /** How close to the limit the counter turns to the warning colour. */
  const WarningThreshold := 20

  /** `if (!maxLength) return;`: a counter needs a `maxlength` that parses to a number other than 0. */
  predicate HasCounter(maxLength: Option<int>)
    ensures maxLength.None? || maxLength == Some(0) ==> !HasCounter(maxLength)
    ensures maxLength.Some? && maxLength.value < 0 ==> HasCounter(maxLength)
  {
    maxLength.Some? && maxLength.value != 0
  }

  /** The counter under a field with a `maxlength`: the characters left, and the warning colour. */
  class CharacterCounter {
    const maxLength: int
    var remaining: int
    var warning: bool

    /** Adding the counter runs `updateCounter` once. */
    constructor (maxLength: int, value: string)
      requires maxLength != 0
      ensures this.maxLength == maxLength
      ensures remaining == maxLength - |value| && (warning <==> remaining < WarningThreshold)
    {
      this.maxLength := maxLength;
      remaining := maxLength - |value|;
      warning := maxLength - |value| < WarningThreshold;
    }

    /** `updateCounter`, on every `input` event. */
    method Update(value: string)
      modifies this
      ensures remaining == maxLength - |value|
      ensures warning <==> |value| > maxLength - WarningThreshold
    {
      remaining := maxLength - |value|;
      warning := remaining < WarningThreshold;
    }
  }

  /**
   * `addCharacterCounter(input)`: no counter when `maxlength` is missing, not a
   * number, or 0; otherwise a new counter showing the characters left in `value`.
   */
  method AddCharacterCounter(maxLength: Option<int>, value: string) returns (c: CharacterCounter?)
    ensures c != null <==> HasCounter(maxLength)
    ensures c != null ==> fresh(c) && c.maxLength == maxLength.value && c.remaining == maxLength.value - |value|
    ensures c != null ==> (c.warning <==> c.remaining < WarningThreshold)
  {
    if !HasCounter(maxLength) {
      return null;
    }
    c := new CharacterCounter(maxLength.value, value);
  }
}
