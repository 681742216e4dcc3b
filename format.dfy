/**
  The part of fmt.Sprintf that the resource-name helpers use: a format string
  whose verbs are `%s` applied to string operands, and the escape `%%`.
 */
module Format {

  /** What fmt prints for a `%s` verb that has no operand left. */
  const Missing: string := "%!s(MISSING)"

  /**
    `format` with each `%s` replaced by the next operand and each `%%` by `%`;
    every other character is copied.
   */
  function Sprintf(format: string, args: seq<string>): string
    decreases |format|
  {
    if |format| == 0 then ""
    else if format[0] == '%' && |format| >= 2 && format[1] == 's' then
      if |args| > 0 then args[0] + Sprintf(format[2..], args[1..])
      else Missing + Sprintf(format[2..], args)
    else if format[0] == '%' && |format| >= 2 && format[1] == '%' then
      "%" + Sprintf(format[2..], args)
    else
      [format[0]] + Sprintf(format[1..], args)
  }

  /** Text without a `%` is copied to the output as it is. */
  lemma {:induction false} SprintfLiteral(text: string, rest: string, args: seq<string>)
    requires forall i | 0 <= i < |text| :: text[i] != '%'
    ensures Sprintf(text + rest, args) == text + Sprintf(rest, args)
    decreases |text|
  {
    if |text| > 0 {
      var f := text + rest;
      assert f[0] == text[0] != '%';
      assert f[1..] == text[1..] + rest;
      assert forall i | 0 <= i < |text[1..]| :: text[1..][i] != '%' by {
        forall i | 0 <= i < |text[1..]| ensures text[1..][i] != '%' {
          assert text[1..][i] == text[i + 1];
        }
      }
      SprintfLiteral(text[1..], rest, args);
      calc {
        Sprintf(f, args);
        [f[0]] + Sprintf(f[1..], args);
        [text[0]] + (text[1..] + Sprintf(rest, args));
        { assert text == [text[0]] + text[1..]; }
        text + Sprintf(rest, args);
      }
    } else {
      assert text + rest == rest;
    }
  }

  /** A leading `%s` prints the first operand and leaves the others to the rest of the format. */
  lemma SprintfVerb(rest: string, arg: string, args: seq<string>)
    ensures Sprintf("%s" + rest, [arg] + args) == arg + Sprintf(rest, args)
  {
    var f := "%s" + rest;
    assert f[0] == '%' && f[1] == 's' && f[2..] == rest;
    assert ([arg] + args)[1..] == args;
  }

  lemma SprintfFirstSegment(a: string, b: string)
    ensures Sprintf("%s/%s", [a, b]) == a + Sprintf("/%s", [b])
  {
    assert "%s/%s" == "%s" + "/%s";
    assert [a, b] == [a] + [b];
    SprintfVerb("/%s", a, [b]);
  }

  lemma SprintfSecondSegment(b: string)
    ensures Sprintf("/%s", [b]) == "/" + b
  {
    assert "/%s" == "/" + "%s";
    SprintfLiteral("/", "%s", [b]);
    assert "%s" == "%s" + "" && [b] == [b] + [];
    SprintfVerb("", b, []);
  }

  /** The shape both resource names are printed with: a `%`-free prefix, then `%s/%s`. */
  lemma SprintfTwoSegments(prefix: string, a: string, b: string)
    requires forall i | 0 <= i < |prefix| :: prefix[i] != '%'
    ensures Sprintf(prefix + "%s/%s", [a, b]) == prefix + a + "/" + b
  {
    calc {
      Sprintf(prefix + "%s/%s", [a, b]);
      { SprintfLiteral(prefix, "%s/%s", [a, b]); }
      prefix + Sprintf("%s/%s", [a, b]);
      { SprintfFirstSegment(a, b); SprintfSecondSegment(b); }
      prefix + (a + ("/" + b));
      { ConcatAssoc(prefix, a, b); }
      prefix + a + "/" + b;
    }
  }

  lemma ConcatAssoc(p: string, a: string, b: string)
    ensures p + (a + ("/" + b)) == p + a + "/" + b
  {
  }
}
