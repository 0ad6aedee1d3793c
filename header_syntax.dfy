/**
 * The quoted-string of section 3.2.6 of RFC 7230, which section 4.1 of
 * RFC 6266 uses for the filename parameter of Content-Disposition:
 * what a client reads out of a quoted header parameter.
 */
module HeaderSyntax {
  import opened Wrappers

  /** qdtext: HTAB, SP, %x21, %x23-5B, %x5D-7E and obs-text (%x80-FF). */
  predicate IsQdText(c: char) {
    c == '\t' || c == ' ' || c == '!' || ('#' <= c <= '[') || (']' <= c <= '~')
    || ('\U{80}' <= c <= '\U{FF}')
  }

  /** The characters that may follow a backslash in a quoted-pair: HTAB, SP, VCHAR and obs-text. */
  predicate IsQuotedPairChar(c: char) {
    c == '\t' || c == ' ' || ('!' <= c <= '~') || ('\U{80}' <= c <= '\U{FF}')
  }

  /** Every character of `s` is qdtext, so `s` can stand between quotes unescaped. */
  predicate AllQdText(s: string) {
    forall i :: 0 <= i < |s| ==> IsQdText(s[i])
  }

  /**
   * Reads the rest of a quoted-string after its opening quote: qdtext stands
   * for itself, a quoted-pair for its second character, and the closing
   * quote must be the last character. None when `s` is not such a rest.
   */
  function Unquote(s: string): (r: Option<string>)
    ensures r.Some? ==> |r.value| < |s|
  {
    if s == [] then None
    else if s[0] == '"' then (if |s| == 1 then Some([]) else None)
    else if s[0] == '\\' then
      if |s| >= 2 && IsQuotedPairChar(s[1]) then
        match Unquote(s[2..])
        case Some(rest) => Some([s[1]] + rest)
        case None => None
      else None
    else if IsQdText(s[0]) then
      match Unquote(s[1..])
      case Some(rest) => Some([s[0]] + rest)
      case None => None
    else None
  }

  /** The value a quoted-string denotes, or None when `s` is not exactly one quoted-string. */
  function QuotedStringValue(s: string): Option<string> {
    if |s| >= 1 && s[0] == '"' then Unquote(s[1..]) else None
  }

  /**
   * Putting `text` between quotes unchanged gives a quoted-string that
   * denotes `text` exactly when every character of `text` is qdtext.
   */
  lemma {:induction false} UnquoteVerbatimIff(text: string)
    ensures Unquote(text + "\"") == Some(text) <==> AllQdText(text)
  {
    var s := text + "\"";
    if text == [] {
      assert s == "\"";
    } else {
      assert s[0] == text[0];
      assert s[1..] == text[1..] + "\"";
      UnquoteVerbatimIff(text[1..]);
      if text[0] == '"' {
        assert Unquote(s) == None;
      } else if text[0] == '\\' {
        if Unquote(s).Some? {
          // the pair stands for one character, so the result is too short
          assert |Unquote(s[2..]).value| < |s[2..]|;
          assert |Unquote(s).value| < |text|;
        }
        assert !IsQdText(text[0]);
      } else if IsQdText(text[0]) {
        if Unquote(s) == Some(text) {
          assert Unquote(s[1..]) == Some(text[1..]);
        }
        if AllQdText(text) {
          assert AllQdText(text[1..]);
          assert [text[0]] + text[1..] == text;
        }
        if AllQdText(text[1..]) {
          forall i | 0 <= i < |text| ensures IsQdText(text[i]) {
            if i > 0 { assert text[i] == text[1..][i - 1]; }
          }
        }
      } else {
        assert Unquote(s) == None;
      }
    }
  }
}
