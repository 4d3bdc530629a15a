/** The pure parts of the bot's `/start` handler: the username a new user
    gets, the referral code carried by a deep link ("/start <code>"), and
    the referral code generated for the new user from a random UUID (the
    UUID's 128-bit value is a parameter). */
module BotStart {
  import opened Wrappers
  import opened Strings

  const UserPrefix := "user_"

  /** `tg_user.username or f"user_{tg_user.id}"`: a missing or empty
      Telegram username falls back to "user_" and the decimal id. */
  function Username(username: Option<string>, tgId: int): (r: string)
    ensures r != ""
    ensures username.Some? && username.value != "" ==> r == username.value
    ensures username.None? || username.value == "" ==>
              |r| > |UserPrefix| && r[..|UserPrefix|] == UserPrefix && r[|UserPrefix|..] == IntToString(tgId)
  {
    if username.Some? && username.value != "" then username.value
    else
      var r := UserPrefix + IntToString(tgId);
      assert r[|UserPrefix|..] == IntToString(tgId);
      r
  }

  /** Two users who both fall back get the same username only if they have
      the same Telegram id. */
  lemma FallbackUsernamesDiffer(a: int, b: int)
    requires Username(None, a) == Username(None, b)
    ensures a == b
  {
    assert IntToString(a) == Username(None, a)[|UserPrefix|..];
    assert IntToString(b) == Username(None, b)[|UserPrefix|..];
    IntToStringInjective(a, b);
  }

  /** `ref_by`: nothing for a missing or empty text or a single token;
      otherwise what follows the first token and the whitespace after it,
      with surrounding whitespace removed. */
  function RefBy(text: Option<string>): (r: Option<string>)
    ensures text.None? || text.value == "" ==> r.None?
    ensures text.Some? ==> (r.Some? <==> |SplitOnce(text.value)| == 2)
    ensures r.Some? ==> r.value == Strip(SplitOnce(text.value)[1])
    ensures r.Some? ==> r.value != ""
  {
    if text.None? || text.value == "" then None
    else
      var parts := SplitOnce(text.value);
      if |parts| > 1 then
        var code := Strip(parts[1]);
        assert code != "" by {
          var s := text.value;
          var c := SkipSpace(s, SkipToken(s, SkipSpace(s, 0)));
          assert parts[1][0] == s[c] && !IsSpace(s[c]);
          assert !AllSpace(parts[1]);
        }
        Some(code)
      else None
  }

  /** A string without whitespace is its own `strip()`. */
  lemma StripNoSpace(s: string)
    requires s != "" && NoSpace(s)
    ensures Strip(s) == s
  {
    assert SkipSpace(s, 0) == 0;
    assert SkipSpaceBack(s, |s|) == |s|;
  }

  /** Python's `split(maxsplit=1)` on a token, one space and a second
      token gives the two tokens. */
  lemma TwoTokens(t: string, code: string)
    requires t != "" && NoSpace(t) && code != "" && NoSpace(code)
    ensures SplitOnce(t + " " + code) == [t, code]
  {
    var s := t + " " + code;
    var n := |t|;
    assert s[0] == t[0];
    assert SkipSpace(s, 0) == 0;
    assert forall k :: 0 <= k < n ==> s[k] == t[k];
    assert s[n] == ' ';
    SkipTokenOver(s, 0, n);
    assert s[n + 1] == code[0];
    assert SkipSpace(s, n + 1) == n + 1;
    assert SkipSpace(s, n) == n + 1;
    assert s[0..n] == t;
    assert s[n + 1..] == code;
  }

  /** `SkipToken` from `i` stops at the first space, here at `j`. */
  lemma {:induction false} SkipTokenOver(s: string, i: nat, j: nat)
    requires i <= j < |s| && IsSpace(s[j])
    requires forall k :: i <= k < j ==> !IsSpace(s[k])
    ensures SkipToken(s, i) == j
    decreases j - i
  {
    if i < j {
      SkipTokenOver(s, i + 1, j);
    }
  }

  /** The deep link "/start <code>" that Telegram sends for
      `t.me/<bot>?start=<code>` yields exactly the code. */
  lemma DeepLinkRefBy(code: string)
    requires code != "" && NoSpace(code)
    ensures RefBy(Some("/start " + code)) == Some(code)
  {
    var t := "/start";
    assert NoSpace(t);
    var s := t + " " + code;
    TwoTokens(t, code);
    assert SplitOnce(s) == [t, code];
    StripNoSpace(code);
    assert s != "" && s == "/start " + code;
  }

  /** A bare "/start" carries no referral code. */
  lemma BareStartRefBy()
    ensures RefBy(Some("/start")) == None
  {
    var s := "/start";
    assert NoSpace(s);
    SkipTokenEnd(s, 0);
    assert SplitOnce(s) == [s] by {
      assert SkipSpace(s, 0) == 0;
      assert SkipSpace(s, |s|) == |s|;
      assert s[0..|s|] == s;
    }
  }

  /** `SkipToken` runs to the end of a string without whitespace. */
  lemma {:induction false} SkipTokenEnd(s: string, i: nat)
    requires i <= |s| && NoSpace(s)
    ensures SkipToken(s, i) == |s|
    decreases |s| - i
  {
    if i < |s| {
      SkipTokenEnd(s, i + 1);
    }
  }

  // ---------------------------------------------------------------------
  // generate_ref_code: str(uuid.uuid4())[:8]
  // ---------------------------------------------------------------------

  const Bits16: nat := 0x1_0000
  const Bits32: nat := 0x1_0000_0000
  const Bits48: nat := 0x1_0000_0000_0000
  const Bits64: nat := 0x1_0000_0000_0000_0000
  const Bits80: nat := 0x1_0000_0000_0000_0000_0000
  const Bits96: nat := 0x1_0000_0000_0000_0000_0000_0000
  const Bits128: nat := 0x1_0000_0000_0000_0000_0000_0000_0000_0000

  function Pow16(w: nat): (p: nat)
    ensures p >= 1
  {
    if w == 0 then 1 else 16 * Pow16(w - 1)
  }

  predicate IsHexDigit(c: char) {
    '0' <= c <= '9' || 'a' <= c <= 'f'
  }

  function HexDigit(d: nat): (c: char)
    requires d < 16
    ensures IsHexDigit(c)
  {
    if d < 10 then (48 + d) as char else (87 + d) as char
  }

  function HexDigitValue(c: char): (d: nat)
    requires IsHexDigit(c)
    ensures d < 16
  {
    if c <= '9' then c as int - 48 else c as int - 87
  }

  /** `w` lower-case hexadecimal digits of `n`, most significant first,
      padded with zeros, as UUIDs print their fields. */
  function Hex(n: nat, w: nat): (s: string)
    ensures |s| == w
    ensures forall k :: 0 <= k < w ==> IsHexDigit(s[k])
  {
    if w == 0 then "" else Hex(n / 16, w - 1) + [HexDigit(n % 16)]
  }

  /** The number a string of hexadecimal digits denotes. */
  function HexValue(s: string): nat
    requires forall k :: 0 <= k < |s| ==> IsHexDigit(s[k])
  {
    if s == [] then 0 else HexValue(s[..|s| - 1]) * 16 + HexDigitValue(s[|s| - 1])
  }

  /** A field that fits its width prints without loss. */
  lemma {:induction false} HexRoundTrip(n: nat, w: nat)
    requires n < Pow16(w)
    ensures HexValue(Hex(n, w)) == n
  {
    if w > 0 {
      var s := Hex(n, w);
      assert s[..|s| - 1] == Hex(n / 16, w - 1);
      HexRoundTrip(n / 16, w - 1);
      assert HexDigitValue(HexDigit(n % 16)) == n % 16;
    }
  }

  /** `str(uuid)`: 32 hex digits of the 128-bit value in groups of 8, 4, 4,
      4 and 12, separated by '-'. */
  function UuidString(u: nat): (s: string)
    requires u < Bits128
    ensures |s| == 36
  {
    Hex(u / Bits96, 8) + "-" + Hex(u / Bits80 % Bits16, 4) + "-"
      + Hex(u / Bits64 % Bits16, 4) + "-" + Hex(u / Bits48 % Bits16, 4) + "-"
      + Hex(u % Bits48, 12)
  }

  /** `generate_ref_code`: the first group of the UUID, that is eight hex
      digits encoding its top 32 bits. */
  function GenerateRefCode(u: nat): (code: string)
    requires u < Bits128
    ensures |code| == 8
    ensures forall k :: 0 <= k < 8 ==> IsHexDigit(code[k])
    ensures '-' !in code
  {
    UuidString(u)[..8]
  }

  /** The code determines the UUID's top 32 bits and only those. */
  lemma RefCodeIsTopBits(u: nat)
    requires u < Bits128
    ensures HexValue(GenerateRefCode(u)) == u / Bits96
  {
    assert Pow16(8) == Bits32;
    assert GenerateRefCode(u) == Hex(u / Bits96, 8);
    HexRoundTrip(u / Bits96, 8);
  }
}
