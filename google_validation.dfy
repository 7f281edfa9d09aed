/**
 * The route-parameter validators of the Google-user routes: a UUID v4 check and an email check,
 * both answering 400 before the handler runs. The regular expressions are written out as
 * predicates on the parameter's characters.
 */
module GoogleValidation {
  import opened Wrappers

  /** `\s` of JavaScript regular expressions: the WhiteSpace and LineTerminator characters. */
  predicate IsSpace(c: char) {
    || c == '\t' || c == '\n' || c == '\U{000B}' || c == '\U{000C}' || c == '\r' || c == ' '
    || c == '\U{00A0}' || c == '\U{1680}' || ('\U{2000}' <= c <= '\U{200A}')
    || c == '\U{2028}' || c == '\U{2029}' || c == '\U{202F}' || c == '\U{205F}'
    || c == '\U{3000}' || c == '\U{FEFF}'
  }

  // ---------------------------------------------------------------------------------------
  // UUID v4: /^[0-9a-f]{8}-[0-9a-f]{4}-4[0-9a-f]{3}-[89ab][0-9a-f]{3}-[0-9a-f]{12}$/i
  // ---------------------------------------------------------------------------------------

  /** `[0-9a-f]` under the `i` flag. */
  predicate IsHexDigit(c: char) {
    ('0' <= c <= '9') || ('a' <= c <= 'f') || ('A' <= c <= 'F')
  }

  predicate AllHex(s: string) {
    forall i :: 0 <= i < |s| ==> IsHexDigit(s[i])
  }

  /** `[89ab]` under the `i` flag. */
  predicate IsVariant(c: char) {
    c == '8' || c == '9' || c == 'a' || c == 'b' || c == 'A' || c == 'B'
  }

  /** The regular expression, read position by position over the 36 characters it matches. */
  predicate IsUuidV4(s: string): (b: bool)
    ensures b ==> |s| == 36 && forall i :: 0 <= i < |s| ==> s[i] == '-' || IsHexDigit(s[i])
  {
    && |s| == 36
    && s[8] == '-' && s[13] == '-' && s[18] == '-' && s[23] == '-'
    && AllHex(s[..8]) && AllHex(s[9..13])
    && s[14] == '4' && AllHex(s[15..18])
    && IsVariant(s[19]) && AllHex(s[20..23])
    && AllHex(s[24..])
  }

  /** `s.split('-')`. */
  function Split(s: string): (r: seq<string>)
    ensures |r| >= 1
  {
    if s == [] then [[]]
    else
      var rest := Split(s[1..]);
      if s[0] == '-' then [[]] + rest else [[s[0]] + rest[0]] + rest[1..]
  }

  /** `groups.join('-')`. */
  function Join(groups: seq<string>): string
    requires |groups| >= 1
  {
    if |groups| == 1 then groups[0] else groups[0] + "-" + Join(groups[1..])
  }

  /** Joining the pieces of a split gives back the original text. */
  lemma {:induction false} JoinSplit(s: string)
    ensures Join(Split(s)) == s
  {
    if s != [] {
      var tail := s[1..];
      var rest := Split(tail);
      JoinSplit(tail);
      assert s == [s[0]] + tail;
      var r := Split(s);
      if s[0] == '-' {
        assert r == [[]] + rest;
        assert r[1..] == rest;
        assert Join(r) == [] + "-" + Join(rest);
      } else if |rest| == 1 {
        assert r == [[s[0]] + rest[0]];
        assert Join(rest) == rest[0];
      } else {
        assert r == [[s[0]] + rest[0]] + rest[1..];
        assert r[1..] == rest[1..];
        var joined := Join(rest[1..]);
        assert Join(r) == ([s[0]] + rest[0]) + "-" + joined;
        assert tail == rest[0] + "-" + joined;
        assert Join(r) == [s[0]] + tail;
      }
    }
  }

  /** A text without '-' splits into itself. */
  lemma {:induction false} SplitNoDash(a: string)
    requires forall i :: 0 <= i < |a| ==> a[i] != '-'
    ensures Split(a) == [a]
  {
    if a != [] {
      SplitNoDash(a[1..]);
      assert [a[0]] + a[1..] == a;
    }
  }

  /** Splitting `a-b` where a has no '-' gives a followed by the pieces of b. */
  lemma {:induction false} SplitAtFirstDash(a: string, b: string)
    requires forall i :: 0 <= i < |a| ==> a[i] != '-'
    ensures Split(a + "-" + b) == [a] + Split(b)
  {
    if a == [] {
      assert a + "-" + b == "-" + b;
      assert ("-" + b)[1..] == b;
    } else {
      var s := a + "-" + b;
      assert s[1..] == a[1..] + "-" + b;
      SplitAtFirstDash(a[1..], b);
      assert [a[0]] + a[1..] == a;
    }
  }

  /** Joining five groups puts a '-' between consecutive ones. */
  lemma JoinFive(g: seq<string>)
    requires |g| == 5
    ensures Join(g) == g[0] + "-" + (g[1] + "-" + (g[2] + "-" + (g[3] + "-" + g[4])))
  {
    assert g[1..][1..] == g[2..] && g[2..][1..] == g[3..] && g[3..][1..] == g[4..];
    assert Join(g[4..]) == g[4];
    assert Join(g[3..]) == g[3] + "-" + g[4];
    assert Join(g[2..]) == g[2] + "-" + (g[3] + "-" + g[4]);
  }

  /** The five dash-separated groups of the regular expression. */
  predicate UuidGroups(g: seq<string>) {
    && |g| == 5
    && |g[0]| == 8 && |g[1]| == 4 && |g[2]| == 4 && |g[3]| == 4 && |g[4]| == 12
    && AllHex(g[0]) && AllHex(g[1]) && AllHex(g[2]) && AllHex(g[3]) && AllHex(g[4])
    && g[2][0] == '4' && IsVariant(g[3][0])
  }

  /**
   * The positional reading agrees with the textual one: a UUID v4 is exactly five
   * dash-separated groups of 8, 4, 4, 4 and 12 hex digits, the third starting with '4' and the
   * fourth with 8, 9, a or b (either case).
   */
  lemma UuidIffGroups(s: string)
    ensures IsUuidV4(s) <==> UuidGroups(Split(s))
  {
    if IsUuidV4(s) {
      UuidSplits(s);
    }
    if UuidGroups(Split(s)) {
      GroupsFormUuid(s);
    }
  }

  /** A UUID v4 splits into its five positional groups, which meet UuidGroups. */
  lemma UuidSplits(s: string)
    requires IsUuidV4(s)
    ensures UuidGroups(Split(s))
  {
    var g0, g1, g2, g3, g4 := s[..8], s[9..13], s[14..18], s[19..23], s[24..];
    assert AllHex(g2) && AllHex(g3) by {
      assert forall i :: 0 <= i < 4 ==> g2[i] == s[14 + i] && g3[i] == s[19 + i];
    }
    var t3 := g3 + "-" + g4;
    var t2 := g2 + "-" + t3;
    var t1 := g1 + "-" + t2;
    assert s == g0 + "-" + t1;
    SplitNoDash(g4);
    SplitAtFirstDash(g3, g4);
    SplitAtFirstDash(g2, t3);
    SplitAtFirstDash(g1, t2);
    SplitAtFirstDash(g0, t1);
    assert Split(s) == [g0, g1, g2, g3, g4];
  }

  /** Five groups meeting UuidGroups, joined by '-', read as a UUID v4 position by position. */
  lemma GroupsFormUuid(s: string)
    requires UuidGroups(Split(s))
    ensures IsUuidV4(s)
  {
    var g := Split(s);
    JoinSplit(s);
    JoinFive(g);
    var t3 := g[3] + "-" + g[4];
    var t2 := g[2] + "-" + t3;
    var t1 := g[1] + "-" + t2;
    assert s == g[0] + "-" + t1;
    assert |t3| == 17 && |t2| == 22 && |t1| == 27 && |s| == 36;
    assert s[..8] == g[0] && s[8] == '-' && s[9..] == t1;
    assert t1[..4] == g[1] && t1[4] == '-' && t1[5..] == t2;
    assert t2[..4] == g[2] && t2[4] == '-' && t2[5..] == t3;
    assert t3[..4] == g[3] && t3[4] == '-' && t3[5..] == g[4];
    assert s[9..13] == g[1] && s[13] == '-' && s[14..] == t2;
    assert s[14] == g[2][0] && s[15..18] == g[2][1..] && s[18] == '-' && s[19..] == t3;
    assert s[19] == g[3][0] && s[20..23] == g[3][1..] && s[23] == '-' && s[24..] == g[4];
  }

  function CountChar(s: string, c: char): (n: nat)
    ensures n <= |s|
  {
    if s == [] then 0 else (if s[0] == c then 1 else 0) + CountChar(s[1..], c)
  }

  lemma {:induction false} CountCharAppend(a: string, b: string, c: char)
    ensures CountChar(a + b, c) == CountChar(a, c) + CountChar(b, c)
  {
    if a != [] {
      assert (a + b)[0] == a[0] && (a + b)[1..] == a[1..] + b;
      CountCharAppend(a[1..], b, c);
    } else {
      assert a + b == b;
    }
  }

  lemma {:induction false} CountCharHex(a: string)
    requires AllHex(a)
    ensures CountChar(a, '-') == 0
  {
    if a != [] {
      CountCharHex(a[1..]);
    }
  }

  /** A '-' after a run of hex digits adds exactly one dash to the count. */
  lemma CountAfterHexGroup(a: string, b: string)
    requires AllHex(a)
    ensures CountChar(a + "-" + b, '-') == 1 + CountChar(b, '-')
  {
    CountCharHex(a);
    CountCharAppend(a + "-", b, '-');
    CountCharAppend(a, "-", '-');
  }

  /** Every accepted UUID is 36 characters long with exactly four '-'. */
  lemma UuidLengthAndDashes(s: string)
    requires IsUuidV4(s)
    ensures |s| == 36 && CountChar(s, '-') == 4
  {
    var g0, g1, g2, g3, g4 := s[..8], s[9..13], s[14..18], s[19..23], s[24..];
    assert AllHex(g2) && AllHex(g3) by {
      assert forall i :: 0 <= i < 4 ==> g2[i] == s[14 + i] && g3[i] == s[19 + i];
    }
    assert s == g0 + "-" + (g1 + "-" + (g2 + "-" + (g3 + "-" + g4)));
    CountCharHex(g4);
    CountAfterHexGroup(g3, g4);
    CountAfterHexGroup(g2, g3 + "-" + g4);
    CountAfterHexGroup(g1, g2 + "-" + (g3 + "-" + g4));
    CountAfterHexGroup(g0, g1 + "-" + (g2 + "-" + (g3 + "-" + g4)));
  }

  /** Lower-casing, which the `i` flag makes irrelevant. */
  function Lower(s: string): (r: string)
    ensures |r| == |s|
  {
    seq(|s|, i requires 0 <= i < |s| => if 'A' <= s[i] <= 'Z' then (s[i] as int + 32) as char else s[i])
  }

  /** This validation is case-insensitive: a text passes exactly when its lower-case form does. */
  lemma UuidCaseInsensitive(s: string)
    ensures IsUuidV4(s) <==> IsUuidV4(Lower(s))
  {
    var l := Lower(s);
    if |s| == 36 {
      assert forall i :: 0 <= i < 36 ==> (IsHexDigit(s[i]) <==> IsHexDigit(l[i]));
      assert forall a, b :: 0 <= a <= b <= 36 ==> (AllHex(s[a..b]) <==> AllHex(l[a..b])) by {
        forall a, b | 0 <= a <= b <= 36 ensures AllHex(s[a..b]) <==> AllHex(l[a..b]) {
          assert forall i :: 0 <= i < b - a ==> s[a..b][i] == s[a + i] && l[a..b][i] == l[a + i];
        }
      }
      assert s[..8] == s[0..8] && l[..8] == l[0..8];
      assert s[24..] == s[24..36] && l[24..] == l[24..36];
    }
  }

  // ---------------------------------------------------------------------------------------
  // Email: /^[^\s@]+@[^\s@]+\.[^\s@]+$/
  // ---------------------------------------------------------------------------------------

  /** `[^\s@]+`: a non-empty run of characters that are neither whitespace nor '@'. */
  predicate Plain(t: string) {
    |t| > 0 && forall i :: 0 <= i < |t| ==> !IsSpace(t[i]) && t[i] != '@'
  }

  /** The regular expression: some '@' at a and some '.' at d split s into three plain runs. */
  predicate EmailRegex(s: string): (b: bool)
    ensures b ==> |s| >= 5 && '@' in s && '.' in s
  {
    exists a, d :: 0 < a < d < |s| - 1 && s[a] == '@' && s[d] == '.'
      && Plain(s[..a]) && Plain(s[a + 1..d]) && Plain(s[d + 1..])
  }

  /** The '@' of s at index a is its only one. */
  predicate OnlyAt(s: string, a: nat) {
    forall b :: 0 <= b < |s| && s[b] == '@' ==> b == a
  }

  /** The domain holds a '.' that is neither its first nor its last character. */
  predicate InnerDot(domain: string) {
    exists j :: 0 < j < |domain| - 1 && domain[j] == '.'
  }

  /**
   * The email check read as rules: no whitespace, exactly one '@', a non-empty local part, and a
   * domain with a '.' that is neither its first nor its last character.
   */
  predicate EmailRules(s: string) {
    && (forall i :: 0 <= i < |s| ==> !IsSpace(s[i]))
    && exists a :: 0 < a < |s| && s[a] == '@' && OnlyAt(s, a) && InnerDot(s[a + 1..])
  }

  /** Every text the regular expression accepts follows the rules. */
  lemma EmailRegexFollowsRules(s: string)
    requires EmailRegex(s)
    ensures EmailRules(s)
  {
    var a, d :| 0 < a < d < |s| - 1 && s[a] == '@' && s[d] == '.'
      && Plain(s[..a]) && Plain(s[a + 1..d]) && Plain(s[d + 1..]);
    var local, host, top := s[..a], s[a + 1..d], s[d + 1..];
    forall i | 0 <= i < |s| ensures !IsSpace(s[i]) && (s[i] == '@' ==> i == a) {
      if i < a { assert local[i] == s[i]; }
      else if a < i < d { assert host[i - a - 1] == s[i]; }
      else if d < i { assert top[i - d - 1] == s[i]; }
    }
    assert s[a + 1..][d - a - 1] == '.';
  }

  /** Every text that follows the rules is accepted by the regular expression. */
  lemma EmailRulesMatchRegex(s: string)
    requires EmailRules(s)
    ensures EmailRegex(s)
  {
    var a :| 0 < a < |s| && s[a] == '@' && OnlyAt(s, a) && InnerDot(s[a + 1..]);
    var domain := s[a + 1..];
    var j :| 0 < j < |domain| - 1 && domain[j] == '.';
    var d := a + 1 + j;
    assert s[d] == domain[j];
    var local, host, top := s[..a], s[a + 1..d], s[d + 1..];
    assert Plain(local) by {
      forall i | 0 <= i < |local| ensures !IsSpace(local[i]) && local[i] != '@' {
        assert local[i] == s[i];
      }
    }
    assert Plain(host) by {
      forall i | 0 <= i < |host| ensures !IsSpace(host[i]) && host[i] != '@' {
        assert host[i] == s[a + 1 + i];
      }
    }
    assert Plain(top) by {
      forall i | 0 <= i < |top| ensures !IsSpace(top[i]) && top[i] != '@' {
        assert top[i] == s[d + 1 + i];
      }
    }
  }

  /** The regular expression accepts exactly the texts that follow the rules. */
  lemma EmailRegexIffRules(s: string)
    ensures EmailRegex(s) <==> EmailRules(s)
  {
    if EmailRegex(s) { EmailRegexFollowsRules(s); }
    if EmailRules(s) { EmailRulesMatchRegex(s); }
  }

  // ---------------------------------------------------------------------------------------
  // The middlewares
  // ---------------------------------------------------------------------------------------

  /** The middleware's outcome: `next()`, or a 400 with `success: false` and this message. */
  datatype Verdict = Next | BadRequest(message: string)

  function RequiredMessage(paramName: string): string {
    "Parámetro " + paramName + " es requerido"
  }

  /**
   * validateUUID(paramName): a missing or empty parameter is refused as required before its
   * format is looked at; a parameter that is not a UUID v4 is refused as invalid.
   */
  function ValidateUuid(paramName: string, param: Option<string>): (v: Verdict)
    ensures v == Next <==> param.Some? && IsUuidV4(param.value)
    ensures param.None? || param.value == "" ==> v == BadRequest(RequiredMessage(paramName))
    ensures param.Some? && param.value != "" && !IsUuidV4(param.value) ==>
      v == BadRequest(paramName + " debe ser un UUID válido")
  {
    if param.None? || param.value == "" then BadRequest(RequiredMessage(paramName))
    else if !IsUuidV4(param.value) then BadRequest(paramName + " debe ser un UUID válido")
    else Next
  }

  /**
   * validateEmailParam(paramName): a missing or empty parameter is refused as required; a
   * parameter breaking the email rules is refused as invalid.
   */
  function ValidateEmailParam(paramName: string, param: Option<string>): (v: Verdict)
    ensures v == Next <==> param.Some? && EmailRules(param.value)
    ensures param.None? || param.value == "" ==> v == BadRequest(RequiredMessage(paramName))
    ensures param.Some? && param.value != "" && !EmailRules(param.value) ==>
      v == BadRequest(paramName + " debe ser un email válido")
  {
    EmailRegexIffRules(if param.Some? then param.value else "");
    if param.None? || param.value == "" then BadRequest(RequiredMessage(paramName))
    else if !EmailRegex(param.value) then BadRequest(paramName + " debe ser un email válido")
    else Next
  }
}
