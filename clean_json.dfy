/** `cleanJson`: the language model's answer often wraps its JSON in a markdown code fence; the
    fence is cut off before the JSON is parsed. */
module CleanJson {
  import opened Wrappers
  import opened Text

  const FENCE: string := "```"
  const JSON_FENCE: string := "```json"

  /** The answer trimmed, less its fences, trimmed again; a missing answer is the empty object. */
  function Clean(responseText: Option<string>): (r: string)
    ensures responseText.None? ==> r == "{}"
    ensures responseText.Some? ==> Trim(r) == r
  {
    if responseText.None? then "{}"
    else
      var stripped := StripFences(Trim(responseText.value));
      TrimIdempotent(stripped);
      Trim(stripped)
  }

  /** A leading "```json" (or else a leading "```") and one trailing "```" cut off. */
  function StripFences(content: string): (r: string)
    ensures |r| <= |content|
  {
    var unfenced := if StartsWith(content, JSON_FENCE) then content[7..]
                    else if StartsWith(content, FENCE) then content[3..]
                    else content;
    if EndsWith(unfenced, FENCE) then unfenced[..|unfenced| - 3] else unfenced
  }

  /** An answer with no fence is only trimmed. */
  lemma UnfencedIsTrimmed(s: string)
    requires !StartsWith(Trim(s), FENCE) && !EndsWith(Trim(s), FENCE)
    ensures Clean(Some(s)) == Trim(s)
  {
    var t := Trim(s);
    TrimIdempotent(s);
    JsonFenceIsFence(t);
    assert StripFences(t) == t;
  }

  lemma JsonFenceIsFence(s: string)
    ensures StartsWith(s, JSON_FENCE) ==> StartsWith(s, FENCE)
  {
    if StartsWith(s, JSON_FENCE) {
      assert s[..3] == s[..7][..3] == FENCE;
    }
  }

  /** A body fenced as "```json", on lines of its own, comes back as the trimmed body. */
  lemma JsonFenceRemoved(body: string)
    ensures Clean(Some(JSON_FENCE + "\n" + body + "\n" + FENCE)) == Trim(body)
  {
    var s := JSON_FENCE + "\n" + body + "\n" + FENCE;
    TrimOfTrimmed(s);
    assert StartsWith(s, JSON_FENCE) by { assert s[..7] == JSON_FENCE; }
    var unfenced := s[7..];
    assert unfenced == "\n" + body + "\n" + FENCE;
    assert EndsWith(unfenced, FENCE) by { assert unfenced[|unfenced| - 3..] == FENCE; }
    assert unfenced[..|unfenced| - 3] == "\n" + body + "\n";
    TrimPadding(body);
  }

  /** A body fenced with a bare "```" comes back the same way, provided it does not itself begin
      with "json" (which the "```json" test would take for the fence). */
  lemma PlainFenceRemoved(body: string)
    requires !StartsWith(body, "json")
    ensures Clean(Some(FENCE + "\n" + body + "\n" + FENCE)) == Trim(body)
  {
    var s := FENCE + "\n" + body + "\n" + FENCE;
    TrimOfTrimmed(s);
    assert !StartsWith(s, JSON_FENCE) by { assert s[3] == '\n'; }
    assert StartsWith(s, FENCE) by { assert s[..3] == FENCE; }
    var unfenced := s[3..];
    assert unfenced == "\n" + body + "\n" + FENCE;
    assert EndsWith(unfenced, FENCE) by { assert unfenced[|unfenced| - 3..] == FENCE; }
    assert unfenced[..|unfenced| - 3] == "\n" + body + "\n";
    TrimPadding(body);
  }

  /** A newline on either side of a string does not change its trim. */
  lemma TrimPadding(body: string)
    ensures Trim("\n" + body + "\n") == Trim(body)
  {
    var padded := "\n" + body + "\n";
    assert padded == "\n" + (body + "\n");
    NewlineLeadsTrimStart(body + "\n");
    TrimStartAppend(body, "\n");
    if TrimsToEmpty(body) {
      TrimStartBlank(body);
      TrimEmptyIff(body);
    } else {
      NewlineTrailsTrimEnd(TrimStart(body));
    }
  }

  lemma NewlineLeadsTrimStart(s: string)
    ensures TrimStart("\n" + s) == TrimStart(s)
  {
    assert ("\n" + s)[1..] == s;
  }

  lemma NewlineTrailsTrimEnd(s: string)
    ensures TrimEnd(s + "\n") == TrimEnd(s)
  {
    assert (s + "\n")[..|s|] == s;
  }

  /** Appending trimmable padding to a string with something to keep leaves its leading trim
      in front of the padding; appending it to a blank string trims to nothing. */
  lemma {:induction false} TrimStartAppend(s: string, pad: string)
    requires TrimsToEmpty(pad)
    ensures !TrimsToEmpty(s) ==> TrimStart(s + pad) == TrimStart(s) + pad
    ensures TrimsToEmpty(s) ==> TrimStart(s + pad) == []
  {
    if s == [] {
      assert s + pad == pad;
      TrimStartBlank(pad);
    } else {
      assert (s + pad)[1..] == s[1..] + pad;
      TrimStartAppend(s[1..], pad);
    }
  }

  lemma {:induction false} TrimStartBlank(s: string)
    requires TrimsToEmpty(s)
    ensures TrimStart(s) == []
  {
    if s != [] {
      TrimStartBlank(s[1..]);
    }
  }
}
