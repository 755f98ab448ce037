/**
 * The two attribute validators the Sequelize models use, `notEmpty` and `len`, and the
 * `allowNull: false` rule, on string attributes that may be absent (`None` is null).
 */
module FieldChecks {
  import opened Wrappers

  /** The characters of JavaScript's `\s` class. */
  predicate IsJsWhitespace(c: char) {
    || c == ' ' || c == '\t' || c == '\n' || c == '\r' || c == '\U{B}' || c == '\U{C}'
    || c == '\U{A0}' || c == '\U{1680}' || ('\U{2000}' <= c <= '\U{200A}')
    || c == '\U{2028}' || c == '\U{2029}' || c == '\U{202F}' || c == '\U{205F}'
    || c == '\U{3000}' || c == '\U{FEFF}'
  }

  /** Sequelize's `notEmpty`: the value is not made of whitespace alone, so "" fails. */
  predicate NotEmpty(s: string)
    ensures NotEmpty(s) ==> s != []
  {
    exists i :: 0 <= i < |s| && !IsJsWhitespace(s[i])
  }

  /** `len: [min, max]`: the length lies between the bounds, both included. */
  predicate Len(s: string, min: nat, max: nat)
    ensures Len(s, min, max) ==> min <= max
    ensures min <= max && (|s| == min || |s| == max) ==> Len(s, min, max)
    ensures |s| < min || |s| > max ==> !Len(s, min, max)
  {
    min <= |s| <= max
  }

  /**
   * A value passes `notEmpty` exactly when one of its parts does: whitespace added around
   * a blank value never makes it pass, and added around a passing value never makes it fail.
   */
  lemma {:induction false} NotEmptyConcat(s: string, t: string)
    ensures NotEmpty(s + t) <==> NotEmpty(s) || NotEmpty(t)
  {
    if NotEmpty(s + t) {
      var i :| 0 <= i < |s + t| && !IsJsWhitespace((s + t)[i]);
      if i >= |s| {
        assert t[i - |s|] == (s + t)[i];
      }
    }
    if NotEmpty(s) {
      var i :| 0 <= i < |s| && !IsJsWhitespace(s[i]);
      assert (s + t)[i] == s[i];
    }
    if NotEmpty(t) {
      var i :| 0 <= i < |t| && !IsJsWhitespace(t[i]);
      assert (s + t)[|s| + i] == t[i];
    }
  }

  /** A required (`allowNull: false`) string attribute with `notEmpty: true` and `len: [min, max]`. */
  predicate RequiredText(v: Option<string>, min: nat, max: nat) {
    v.Some? && NotEmpty(v.value) && Len(v.value, min, max)
  }

  /**
   * What the three rules admit: a present value of admissible length that has at least
   * one character other than whitespace. Whitespace alone is refused whatever its length.
   */
  lemma {:induction false} RequiredTextMeans(v: Option<string>, min: nat, max: nat)
    ensures RequiredText(v, min, max) ==> v.Some? && v.value != [] && min <= |v.value| <= max
    ensures v.Some? && (forall i :: 0 <= i < |v.value| ==> IsJsWhitespace(v.value[i])) ==> !RequiredText(v, min, max)
  {
  }

  /** Three spaces have an admissible length for a three-character minimum but are refused. */
  lemma BlankIsRefused()
    ensures Len("   ", 3, 100) && !RequiredText(Some("   "), 3, 100)
  {
    assert forall i :: 0 <= i < 3 ==> "   "[i] == ' ';
  }
}
