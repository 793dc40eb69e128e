/**
 * The header of an email and the two header fields the parser reads: the
 * text is cut at its first blank line, and the `From:` and `Subject:` lines
 * of the header, matched without regard to case, give the sender and the
 * subject. A later line of the same kind overwrites an earlier one.
 */
module Headers {
  import opened Wrappers
  import opened Text
  import opened Records

  const Separator := "\n\n"

  /** `text.split('\n\n', 1)`: the header, and the body (empty when there is no blank line). */
  function SplitHeader(text: string): (r: (string, string))
    ensures Contains(text, Separator) ==> r.0 + Separator + r.1 == text && !Contains(r.0, Separator)
    ensures Contains(text, Separator) ==>
              OccursAt(text, Separator, |r.0|) && forall j :: 0 <= j < |r.0| ==> !OccursAt(text, Separator, j)
    ensures !Contains(text, Separator) ==> r == (text, "")
  {
    match Find(text, Separator, 0)
    case None => (text, "")
    case Some(i) =>
      var header := text[..i];
      assert header + Separator + text[i + 2..] == text;
      assert !Contains(header, Separator) by {
        if Contains(header, Separator) {
          var j := Find(header, Separator, 0).value;
          assert text[j..j + 2] == header[j..j + 2];
          assert OccursAt(text, Separator, j) && j < i;
          assert false;
        }
      }
      (header, text[i + 2..])
  }

  /** The two header fields the parser extracts. */
  datatype Header = From | Subject {

    /** The prefix, in lower case, a line of this kind starts with. */
    function Prefix(): string {
      match this
      case From => "from:"
      case Subject => "subject:"
    }

    /** The note of a field whose value is empty. */
    function MissingNote(): string {
      match this
      case From => "missing sender"
      case Subject => "missing subject"
    }
  }

  /**
   * The line sets this field. A line counts as a `Subject:` line only when it
   * is not a `From:` line (the `elif` of the loop), which no line can be.
   */
  predicate IsLineOf(line: string, h: Header) {
    match h
    case From => StartsWith(Lower(line), "from:")
    case Subject => !StartsWith(Lower(line), "from:") && StartsWith(Lower(line), "subject:")
  }

  /** `line.split(':', 1)[1]`: the text after the first colon. */
  function AfterColon(line: string): (r: string)
    requires Contains(line, ":")
    ensures |r| < |line| && r == line[|line| - |r|..]
  {
    var i := Find(line, ":", 0).value;
    line[i + 1..]
  }

  /** The field a line of kind `h` produces: its stripped value, at confidence 0.95 unless it is empty. */
  function FieldOf(line: string, h: Header): Field<string>
    requires IsLineOf(line, h)
  {
    ColonInPrefix(line, h);
    var value := Strip(AfterColon(line), Whitespace);
    Field(Some(value), if value != "" then 0.95 else 0.0, if value != "" then "" else h.MissingNote())
  }

  /** The field before any line has set it. */
  const Unset: Field<string> := Field(None, 0.0, "")

  /** A line that starts with the prefix (in any case) has its first colon where the prefix has it. */
  lemma ColonInPrefix(line: string, h: Header)
    requires IsLineOf(line, h)
    ensures Contains(line, ":") && Find(line, ":", 0) == Some(|h.Prefix()| - 1)
  {
    var p := h.Prefix();
    var n := |p| - 1;
    assert Lower(line)[..|p|] == p;
    forall j | 0 <= j < n ensures !OccursAt(line, ":", j) {
      assert Lower(line)[j] == p[j] != ':';
      assert Lower(line)[j] == ToLower(line[j]);
      assert line[j..j + 1] == [line[j]];
    }
    assert Lower(line)[n] == ':' == ToLower(line[n]);
    assert line[n..n + 1] == ":";
    assert OccursAt(line, ":", n);
    var f := Find(line, ":", 0);
    assert f.Some?;
    assert f.value <= n;
  }

  /** The value of a header field is the stripped text after its prefix. */
  lemma ValueAfterPrefix(line: string, h: Header)
    requires IsLineOf(line, h)
    ensures FieldOf(line, h).value == Some(Strip(line[|h.Prefix()|..], Whitespace))
  {
    ColonInPrefix(line, h);
  }

  /** The value of field `h` after the loop has seen `lines`. */
  function Scanned(lines: seq<string>, h: Header): Field<string>
    decreases |lines|
  {
    if lines == [] then Unset
    else
      var last := lines[|lines| - 1];
      if IsLineOf(last, h) then FieldOf(last, h) else Scanned(lines[..|lines| - 1], h)
  }

  /** The loop over the header lines. */
  method ReadHeaders(header: string) returns (from: Field<string>, subject: Field<string>)
    ensures from == Scanned(SplitLines(header), From)
    ensures subject == Scanned(SplitLines(header), Subject)
  {
    var lines := SplitLines(header);
    from, subject := Unset, Unset;
    for i := 0 to |lines|
      invariant from == Scanned(lines[..i], From)
      invariant subject == Scanned(lines[..i], Subject)
    {
      assert lines[..i + 1][..i] == lines[..i];
      var lower := Lower(lines[i]);
      if StartsWith(lower, "from:") {
        ColonInPrefix(lines[i], From);
        var value := Strip(AfterColon(lines[i]), Whitespace);
        from := Field(Some(value), if value != "" then 0.95 else 0.0, if value != "" then "" else "missing sender");
      } else if StartsWith(lower, "subject:") {
        ColonInPrefix(lines[i], Subject);
        var value := Strip(AfterColon(lines[i]), Whitespace);
        subject := Field(Some(value), if value != "" then 0.95 else 0.0, if value != "" then "" else "missing subject");
      }
    }
    assert lines[..|lines|] == lines;
  }

  /**
   * The LAST line of kind `h` determines the field: a later `From:` line
   * overwrites an earlier one.
   */
  lemma {:induction false} LastLineWins(lines: seq<string>, h: Header, k: nat)
    requires k < |lines| && IsLineOf(lines[k], h)
    requires forall j :: k < j < |lines| ==> !IsLineOf(lines[j], h)
    ensures Scanned(lines, h) == FieldOf(lines[k], h)
    decreases |lines|
  {
    var n := |lines| - 1;
    if k < n {
      var init := lines[..n];
      assert !IsLineOf(lines[n], h);
      assert Scanned(lines, h) == Scanned(init, h);
      forall j | k < j < |init| ensures !IsLineOf(init[j], h) {
        assert init[j] == lines[j];
      }
      LastLineWins(init, h, k);
    }
  }

  /** Without a line of kind `h` the field keeps its initial value. */
  lemma {:induction false} NoLineUnset(lines: seq<string>, h: Header)
    requires forall j :: 0 <= j < |lines| ==> !IsLineOf(lines[j], h)
    ensures Scanned(lines, h) == Unset
    decreases |lines|
  {
    if lines != [] {
      var init := lines[..|lines| - 1];
      forall j | 0 <= j < |init| ensures !IsLineOf(init[j], h) {
        assert init[j] == lines[j];
      }
      NoLineUnset(init, h);
    }
  }

  /**
   * A field is either unset or carries a value; it has confidence 0.95
   * exactly when the value is non-empty, and otherwise the missing note.
   */
  lemma {:induction false} ScannedShape(lines: seq<string>, h: Header)
    ensures var f := Scanned(lines, h);
            f == Unset
            || (f.value.Some? && (f.value.value != "" <==> f.confidence == 0.95)
                && (f.value.value == "" <==> f.confidence == 0.0 && f.notes == h.MissingNote())
                && (f.value.value != "" ==> f.notes == ""))
    decreases |lines|
  {
    if lines != [] {
      ScannedShape(lines[..|lines| - 1], h);
    }
  }
}
