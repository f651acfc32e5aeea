/**
 * The authentication side of the HTTP transport: the auth type constants,
 * the table from auth type to auth handler, the tokenizer for
 * WWW-Authenticate header values and the choice of an auth type from a
 * 401 or 200 response.
 */
module Transport {
  import opened Common

  // ---------------------------------------------------------------------
  // Auth types
  // ---------------------------------------------------------------------

  datatype AuthType = NoAuth | Ntlm | Basic | Digest | Gssapi | Sspi | OAuth2 | Cba

  /** The string constant each auth type is known by. */
  function AuthTypeName(t: AuthType): string
  {
    match t
    case NoAuth => "no authentication"
    case Ntlm => "NTLM"
    case Basic => "basic"
    case Digest => "digest"
    case Gssapi => "gssapi"
    case Sspi => "sspi"
    case OAuth2 => "OAuth 2.0"
    case Cba => "CBA"
  }

  /** No two auth types share a name, so the name identifies the type. */
  lemma AuthTypeNamesDistinct(a: AuthType, b: AuthType)
    ensures AuthTypeName(a) == AuthTypeName(b) <==> a == b
  {
  }

  /** The auth types that must be accompanied by a credentials object. */
  const CREDENTIALS_REQUIRED: seq<AuthType> := [Ntlm, Basic, Digest, OAuth2]

  /** The handler class each auth type is served by. */
  datatype AuthModel = HttpNtlmAuth | HttpBasicAuth | HttpDigestAuth | OAuth2Client | HttpSpnegoAuth | HttpNegotiateAuth

  /**
   * AUTH_TYPE_MAP: CBA and no-auth map to no handler; Kerberos and SSPI
   * are present only when their optional package imports.
   */
  function AuthTypeMap(gssapiInstalled: bool, sspiInstalled: bool): (m: map<AuthType, Option<AuthModel>>)
    ensures forall t :: t in CREDENTIALS_REQUIRED ==> t in m && m[t].Some?
    ensures Cba in m && m[Cba] == None && NoAuth in m && m[NoAuth] == None
    ensures Gssapi in m <==> gssapiInstalled
    ensures Sspi in m <==> sspiInstalled
  {
    var base := map[Ntlm := Some(HttpNtlmAuth), Basic := Some(HttpBasicAuth), Digest := Some(HttpDigestAuth),
                    OAuth2 := Some(OAuth2Client), Cba := None, NoAuth := None];
    var withGssapi := if gssapiInstalled then base[Gssapi := Some(HttpSpnegoAuth)] else base;
    if sspiInstalled then withGssapi[Sspi := Some(HttpNegotiateAuth)] else withGssapi
  }

  /** Keyword arguments handed to an auth handler's constructor. */
  type KwArgs = map<string, string>

  datatype AuthInstance = AuthInstance(model: AuthModel, kwargs: KwArgs)

  /**
   * get_auth_instance: look the type up (a missing optional package is a
   * KeyError), return nothing for a type without handler, construct
   * Kerberos without arguments and every other handler with the given ones.
   */
  function GetAuthInstance(t: AuthType, kwargs: KwArgs, gssapiInstalled: bool, sspiInstalled: bool)
    : Result<Option<AuthInstance>>
  {
    var m := AuthTypeMap(gssapiInstalled, sspiInstalled);
    if t !in m then Failure(KeyError)
    else if m[t].None? then Ok(None)
    else if t == Gssapi then Ok(Some(AuthInstance(m[t].value, map[])))
    else Ok(Some(AuthInstance(m[t].value, kwargs)))
  }

  /** What get_auth_instance gives for each kind of auth type. */
  lemma GetAuthInstanceCases(t: AuthType, kwargs: KwArgs, gssapiInstalled: bool, sspiInstalled: bool)
    ensures var r := GetAuthInstance(t, kwargs, gssapiInstalled, sspiInstalled);
      && (r == Failure(KeyError) <==> (t == Gssapi && !gssapiInstalled) || (t == Sspi && !sspiInstalled))
      && (r == Ok(None) <==> t == Cba || t == NoAuth)
      && (t in CREDENTIALS_REQUIRED ==> r.Ok? && r.value.Some? && r.value.value.kwargs == kwargs)
      && (t == Gssapi && gssapiInstalled ==> r == Ok(Some(AuthInstance(HttpSpnegoAuth, map[]))))
      && (t == Sspi && sspiInstalled ==> r == Ok(Some(AuthInstance(HttpNegotiateAuth, kwargs))))
  {
  }

  // ---------------------------------------------------------------------
  // Tokenizer of WWW-Authenticate values
  // ---------------------------------------------------------------------

  predicate IsSep(c: char)
  {
    c == ' ' || c == ','
  }

  /** Neither a separator nor a double quote appears in s. */
  predicate Plain(s: string)
  {
    forall k :: 0 <= k < |s| ==> !IsSep(s[k]) && s[k] != '"'
  }

  /** The length of the longest prefix of s that is Plain. */
  function WordLen(s: string): (n: nat)
    ensures n <= |s|
    ensures forall k :: 0 <= k < n ==> !IsSep(s[k]) && s[k] != '"'
    ensures n < |s| ==> IsSep(s[n]) || s[n] == '"'
  {
    if |s| == 0 || IsSep(s[0]) || s[0] == '"' then 0 else 1 + WordLen(s[1..])
  }

  /** The position of the first double quote in s, or |s| when there is none. */
  function CloseLen(s: string): (n: nat)
    ensures n <= |s|
    ensures forall k :: 0 <= k < n ==> s[k] != '"'
    ensures n < |s| ==> s[n] == '"'
  {
    if |s| == 0 || s[0] == '"' then 0 else 1 + CloseLen(s[1..])
  }

  /** Where a quoted part that has been opened ends: just past its closing quote, or at the end of s. */
  function QuotedEnd(s: string): (e: nat)
    ensures e <= |s|
  {
    if CloseLen(s) == |s| then |s| else CloseLen(s) + 1
  }

  /**
   * Where a token starting at s[0] ends: after its plain characters and,
   * if a double quote follows them, after the quoted part.
   */
  function TokenEnd(s: string): (e: nat)
    ensures e <= |s|
  {
    var n := WordLen(s);
    if n < |s| && s[n] == '"' then n + 1 + QuotedEnd(s[n + 1..]) else n
  }

  /**
   * The tokens of an authenticate value, one token at a time: separators
   * outside quotes are skipped; a token is a run of plain characters,
   * optionally followed by a quoted part that runs to the next double
   * quote (or to the end of the value) and closes the token.
   */
  function Lex(s: string): seq<string>
    decreases |s|
  {
    if |s| == 0 then []
    else if IsSep(s[0]) then Lex(s[1..])
    else
      var e := TokenEnd(s);
      assert e > 0 by {
        if WordLen(s) == 0 {
          assert s[0] == '"';
        }
      }
      [s[..e]] + Lex(s[e..])
  }

  /**
   * The tokens still to come when the tokenizer has read up to rest,
   * holding the partial token cur, inside quotes or not.
   */
  function Pending(cur: string, quote: bool, rest: string): seq<string>
  {
    var e := if quote then QuotedEnd(rest) else TokenEnd(rest);
    (if cur + rest[..e] == "" then [] else [cur + rest[..e]]) + Lex(rest[e..])
  }

  lemma PendingStart(rest: string)
    ensures Pending("", false, rest) == Lex(rest)
  {
    var e := TokenEnd(rest);
    assert "" + rest[..e] == rest[..e];
    if |rest| > 0 && IsSep(rest[0]) {
      assert rest[e..] == rest;
    }
  }

  /** Moving the first character of rest onto the partial token. */
  lemma Shift(cur: string, rest: string, e: nat)
    requires 1 <= e <= |rest|
    ensures cur + rest[..e] == (cur + [rest[0]]) + rest[1..][..e - 1]
    ensures rest[e..] == rest[1..][e - 1..]
  {
    assert rest[..e] == [rest[0]] + rest[1..][..e - 1];
  }

  lemma PendingSep(cur: string, rest: string)
    requires |rest| > 0 && IsSep(rest[0])
    ensures Pending(cur, false, rest) == (if cur == "" then [] else [cur]) + Pending("", false, rest[1..])
  {
    assert TokenEnd(rest) == 0;
    assert cur + rest[..0] == cur;
    assert rest[0..] == rest;
    PendingStart(rest[1..]);
  }

  lemma PendingOpen(cur: string, rest: string)
    requires |rest| > 0 && rest[0] == '"'
    ensures Pending(cur, false, rest) == Pending(cur + [rest[0]], true, rest[1..])
  {
    assert TokenEnd(rest) == 1 + QuotedEnd(rest[1..]);
    Shift(cur, rest, TokenEnd(rest));
  }

  lemma PendingWordChar(cur: string, rest: string)
    requires |rest| > 0 && !IsSep(rest[0]) && rest[0] != '"'
    ensures Pending(cur, false, rest) == Pending(cur + [rest[0]], false, rest[1..])
  {
    var tail := rest[1..];
    var n := WordLen(tail);
    assert WordLen(rest) == 1 + n;
    if n < |tail| {
      assert rest[n + 1] == tail[n];
      assert rest[n + 2..] == tail[n + 1..];
    }
    assert TokenEnd(rest) == 1 + TokenEnd(tail);
    Shift(cur, rest, TokenEnd(rest));
  }

  lemma PendingClose(cur: string, rest: string)
    requires |rest| > 0 && rest[0] == '"'
    ensures Pending(cur, true, rest) == [cur + [rest[0]]] + Pending("", false, rest[1..])
  {
    assert QuotedEnd(rest) == 1;
    assert rest[..1] == [rest[0]];
    PendingStart(rest[1..]);
  }

  lemma PendingQuotedChar(cur: string, rest: string)
    requires |rest| > 0 && rest[0] != '"'
    ensures Pending(cur, true, rest) == Pending(cur + [rest[0]], true, rest[1..])
  {
    assert CloseLen(rest) == 1 + CloseLen(rest[1..]);
    assert QuotedEnd(rest) == 1 + QuotedEnd(rest[1..]);
    Shift(cur, rest, QuotedEnd(rest));
  }

  /**
   * _tokenize: split an authenticate value on spaces and commas outside
   * double quotes; a closing quote ends its token.
   */
  method Tokenize(val: string) returns (tokens: seq<string>)
    ensures tokens == Lex(val)
  {
    tokens := [];
    var cur := "";
    var quote := false;
    PendingStart(val);
    var i := 0;
    while i < |val|
      invariant Scanned(val, i, tokens, cur, quote)
    {
      tokens, cur, quote := ScanChar(val, i, tokens, cur, quote);
      i := i + 1;
    }
    ScannedAll(val, tokens, cur, quote);
    if cur != "" {
      tokens := tokens + [cur];
    }
  }

  /** One character of the tokenizer's loop: a separator, a double quote or a token character. */
  method ScanChar(val: string, i: nat, tokens: seq<string>, cur: string, quote: bool)
    returns (tokens': seq<string>, cur': string, quote': bool)
    requires i < |val| && Scanned(val, i, tokens, cur, quote)
    ensures Scanned(val, i + 1, tokens', cur', quote')
  {
    var c := val[i];
    tokens', cur', quote' := tokens, cur, quote;
    if IsSep(c) && !quote {
      SepStep(val, i, tokens, cur);
      if cur != "" && cur != "," {
        tokens' := tokens + [cur];
      }
      cur' := "";
      return;
    }
    if c == '"' {
      if quote {
        CloseStep(val, i, tokens, cur);
        tokens' := tokens + [cur + [c]];
        cur' := "";
      } else {
        OpenStep(val, i, tokens, cur);
        cur' := cur + [c];
      }
      quote' := !quote;
      return;
    }
    CharStep(val, i, tokens, cur, quote);
    cur' := cur + [c];
  }

  /**
   * The tokenizer has read val[..i], emitted tokens and holds cur: what
   * is still to come completes the tokens of val.
   */
  ghost predicate Scanned(val: string, i: int, tokens: seq<string>, cur: string, quote: bool)
  {
    && 0 <= i <= |val|
    && (!quote ==> Plain(cur))
    && (quote ==> cur != "")
    && tokens + Pending(cur, quote, val[i..]) == Lex(val)
  }

  lemma ScannedAll(val: string, tokens: seq<string>, cur: string, quote: bool)
    requires Scanned(val, |val|, tokens, cur, quote)
    ensures (if cur != "" then tokens + [cur] else tokens) == Lex(val)
  {
    PendingEnd(cur, quote, val[|val|..]);
  }

  lemma SepStep(val: string, i: int, tokens: seq<string>, cur: string)
    requires 0 <= i < |val| && IsSep(val[i]) && Scanned(val, i, tokens, cur, false)
    ensures Scanned(val, i + 1, if cur != "" && cur != "," then tokens + [cur] else tokens, "", false)
  {
    var rest := val[i..];
    assert rest[1..] == val[i + 1..];
    PendingSep(cur, rest);
    assert cur != "," by {
      assert |cur| == 1 ==> !IsSep(cur[0]);
    }
    if cur != "" {
      assert tokens + ([cur] + Pending("", false, rest[1..])) == tokens + [cur] + Pending("", false, rest[1..]);
    } else {
      assert [] + Pending("", false, rest[1..]) == Pending("", false, rest[1..]);
    }
  }

  lemma CloseStep(val: string, i: int, tokens: seq<string>, cur: string)
    requires 0 <= i < |val| && val[i] == '"' && Scanned(val, i, tokens, cur, true)
    ensures Scanned(val, i + 1, tokens + [cur + [val[i]]], "", false)
  {
    var rest := val[i..];
    assert rest[1..] == val[i + 1..];
    assert rest[0] == val[i];
    PendingClose(cur, rest);
    assert tokens + ([cur + [val[i]]] + Pending("", false, rest[1..])) == tokens + [cur + [val[i]]] + Pending("", false, rest[1..]);
  }

  lemma OpenStep(val: string, i: int, tokens: seq<string>, cur: string)
    requires 0 <= i < |val| && val[i] == '"' && Scanned(val, i, tokens, cur, false)
    ensures Scanned(val, i + 1, tokens, cur + [val[i]], true)
  {
    var rest := val[i..];
    assert rest[1..] == val[i + 1..];
    assert rest[0] == val[i];
    PendingOpen(cur, rest);
  }

  lemma CharStep(val: string, i: int, tokens: seq<string>, cur: string, quote: bool)
    requires 0 <= i < |val| && val[i] != '"' && (IsSep(val[i]) ==> quote) && Scanned(val, i, tokens, cur, quote)
    ensures Scanned(val, i + 1, tokens, cur + [val[i]], quote)
  {
    var rest := val[i..];
    assert rest[0] == val[i] && rest[1..] == val[i + 1..];
    if quote {
      PendingQuotedChar(cur, rest);
    } else {
      PendingWordChar(cur, rest);
      assert forall k :: 0 <= k < |cur| ==> (cur + [val[i]])[k] == cur[k];
    }
  }

  lemma PendingEnd(cur: string, quote: bool, rest: string)
    requires |rest| == 0
    ensures Pending(cur, quote, rest) == if cur == "" then [] else [cur]
  {
    assert WordLen(rest) == 0 && CloseLen(rest) == 0;
    var e := if quote then QuotedEnd(rest) else TokenEnd(rest);
    assert e == 0;
    assert cur + rest[..e] == cur;
    assert Lex(rest[e..]) == [];
  }

  /** The tokenizer never yields an empty token. */
  lemma {:induction false} LexNoEmptyToken(s: string)
    ensures forall t :: t in Lex(s) ==> t != ""
    decreases |s|
  {
    if |s| == 0 {
    } else if IsSep(s[0]) {
      LexNoEmptyToken(s[1..]);
    } else {
      LexNoEmptyToken(s[TokenEnd(s)..]);
    }
  }

  /** The characters of s with the separators that stand outside quotes removed. */
  function Strip(s: string, quote: bool): (r: string)
    ensures |r| <= |s|
  {
    if |s| == 0 then ""
    else if IsSep(s[0]) && !quote then Strip(s[1..], quote)
    else if s[0] == '"' then [s[0]] + Strip(s[1..], !quote)
    else [s[0]] + Strip(s[1..], quote)
  }

  function Concat(ts: seq<string>): string
  {
    if |ts| == 0 then "" else ts[0] + Concat(ts[1..])
  }

  lemma {:induction false} StripPlain(s: string, k: nat)
    requires k <= |s| && forall j :: 0 <= j < k ==> !IsSep(s[j]) && s[j] != '"'
    ensures Strip(s, false) == s[..k] + Strip(s[k..], false)
  {
    if k > 0 {
      var r := s[1..];
      assert forall j :: 0 <= j < k - 1 ==> r[j] == s[j + 1];
      StripPlain(r, k - 1);
      assert r[k - 1..] == s[k..];
      var h, a, x := [s[0]], r[..k - 1], Strip(s[k..], false);
      assert Strip(s, false) == h + Strip(r, false);
      assert h + (a + x) == (h + a) + x;
      assert h + a == s[..k];
    }
  }

  lemma {:induction false} StripQuoted(s: string, k: nat)
    requires k <= |s| && forall j :: 0 <= j < k ==> s[j] != '"'
    ensures Strip(s, true) == s[..k] + Strip(s[k..], true)
  {
    if k > 0 {
      var r := s[1..];
      assert forall j :: 0 <= j < k - 1 ==> r[j] == s[j + 1];
      StripQuoted(r, k - 1);
      assert r[k - 1..] == s[k..];
      var h, a, x := [s[0]], r[..k - 1], Strip(s[k..], true);
      assert Strip(s, true) == h + Strip(r, true);
      assert h + (a + x) == (h + a) + x;
      assert h + a == s[..k];
    }
  }

  /** Outside quotes, one token keeps all its characters. */
  lemma StripToken(s: string)
    ensures Strip(s, false) == s[..TokenEnd(s)] + Strip(s[TokenEnd(s)..], false)
  {
    var n := WordLen(s);
    StripPlain(s, n);
    if n < |s| && s[n] == '"' {
      var t := s[n..];
      var e := 1 + QuotedEnd(t[1..]);
      assert t[1..] == s[n + 1..];
      assert TokenEnd(s) == n + e;
      StripQuotedPart(t);
      GlueToken(s, n, e, Strip(s, false), Strip(t, false), Strip(t[e..], false));
    } else {
      assert TokenEnd(s) == n;
    }
  }

  /** Gluing the plain run and the quoted part of one token back together. */
  lemma GlueToken(s: string, n: nat, e: nat, u: string, v: string, x: string)
    requires n + e <= |s|
    requires u == s[..n] + v && v == s[n..][..e] + x
    ensures u == s[..n + e] + x
    ensures s[n..][e..] == s[n + e..]
  {
    var a, b := s[..n], s[n..][..e];
    assert a + (b + x) == (a + b) + x;
    assert a + b == s[..n + e];
  }

  lemma StripQuotedPart(t: string)
    requires |t| > 0 && t[0] == '"'
    ensures Strip(t, false) == t[..1 + QuotedEnd(t[1..])] + Strip(t[1 + QuotedEnd(t[1..])..], false)
  {
    var q := t[1..];
    assert Strip(t, false) == [t[0]] + Strip(q, true);
    if CloseLen(q) == |q| {
      StripUnclosed(t);
    } else {
      StripClosed(t, CloseLen(q));
    }
  }

  lemma StripUnclosed(t: string)
    requires |t| > 0 && CloseLen(t[1..]) == |t[1..]|
    ensures [t[0]] + Strip(t[1..], true) == t[..1 + QuotedEnd(t[1..])] + Strip(t[1 + QuotedEnd(t[1..])..], false)
  {
    var q := t[1..];
    StripQuoted(q, |q|);
    assert q[|q|..] == "" && q[..|q|] == q;
    assert t[..1 + |q|] == [t[0]] + q;
    assert t[1 + |q|..] == "";
  }

  lemma StripClosed(t: string, c: nat)
    requires |t| > 0 && c == CloseLen(t[1..]) && c < |t[1..]|
    ensures [t[0]] + Strip(t[1..], true) == t[..1 + QuotedEnd(t[1..])] + Strip(t[1 + QuotedEnd(t[1..])..], false)
  {
    var q := t[1..];
    assert QuotedEnd(q) == c + 1;
    StripQuoted(q, c);
    StripCloseQuote(q, c);
    GlueClosed(t, c, Strip(q, true), Strip(q[c..], true), Strip(q[c + 1..], false));
  }

  /** Gluing the opening quote, the body and the closing quote of a closed quoted part back together. */
  lemma GlueClosed(t: string, c: nat, u: string, v: string, x: string)
    requires c + 2 <= |t|
    requires u == t[1..][..c] + v && v == [t[1..][c]] + x
    ensures [t[0]] + u == t[..c + 2] + x
    ensures t[c + 2..] == t[1..][c + 1..]
  {
    var q := t[1..];
    var h, a := [t[0]], q[..c];
    assert h + (a + ([q[c]] + x)) == (h + a + [q[c]]) + x;
    assert q[..c + 1] == a + [q[c]];
    assert t[..c + 2] == h + q[..c + 1];
  }

  lemma StripCloseQuote(q: string, c: nat)
    requires c < |q| && q[c] == '"'
    ensures Strip(q[c..], true) == [q[c]] + Strip(q[c + 1..], false)
  {
    assert q[c..][0] == q[c] && q[c..][1..] == q[c + 1..];
  }

  lemma ConcatAppend(t: string, ts: seq<string>)
    ensures Concat([t] + ts) == t + Concat(ts)
  {
    assert ([t] + ts)[1..] == ts;
  }

  /** Tokenizing loses exactly the separators outside quotes and nothing else. */
  lemma {:induction false} LexKeepsCharacters(s: string)
    ensures Concat(Lex(s)) == Strip(s, false)
    decreases |s|
  {
    if |s| == 0 {
    } else if IsSep(s[0]) {
      LexKeepsCharacters(s[1..]);
    } else {
      StripToken(s);
      LexKeepsCharacters(s[TokenEnd(s)..]);
      ConcatAppend(s[..TokenEnd(s)], Lex(s[TokenEnd(s)..]));
    }
  }

  /** A token the tokenizer keeps whole: a run of plain characters, or one quoted string. */
  predicate SimpleWord(w: string)
  {
    || (w != "" && Plain(w))
    || (|w| >= 2 && w[0] == '"' && w[|w| - 1] == '"' && forall k :: 1 <= k < |w| - 1 ==> w[k] != '"')
  }

  /** A non-empty run of separators. */
  predicate Separator(sep: string)
  {
    sep != "" && forall k :: 0 <= k < |sep| ==> IsSep(sep[k])
  }

  /** Words joined by a separator, as a server lists schemes and parameters in one header. */
  function Join(ws: seq<string>, sep: string): string
  {
    if |ws| == 0 then "" else if |ws| == 1 then ws[0] else ws[0] + sep + Join(ws[1..], sep)
  }

  lemma {:induction false} PlainPrefixWordLen(s: string, k: nat)
    requires k <= |s| && (forall j :: 0 <= j < k ==> !IsSep(s[j]) && s[j] != '"')
    requires k == |s| || IsSep(s[k]) || s[k] == '"'
    ensures WordLen(s) == k
  {
    if k > 0 {
      assert forall j :: 0 <= j < k - 1 ==> s[1..][j] == s[j + 1];
      PlainPrefixWordLen(s[1..], k - 1);
    }
  }

  lemma {:induction false} CloseLenAt(t: string, k: nat)
    requires k < |t| && t[k] == '"' && forall j :: 0 <= j < k ==> t[j] != '"'
    ensures CloseLen(t) == k
  {
    if k > 0 {
      assert forall j :: 0 <= j < k - 1 ==> t[1..][j] == t[j + 1];
      CloseLenAt(t[1..], k - 1);
    }
  }

  /** Separators outside quotes are skipped. */
  lemma {:induction false} LexSkipsSeparators(sep: string, rest: string)
    requires forall k :: 0 <= k < |sep| ==> IsSep(sep[k])
    ensures Lex(sep + rest) == Lex(rest)
  {
    if sep != "" {
      assert (sep + rest)[1..] == sep[1..] + rest;
      LexSkipsSeparators(sep[1..], rest);
    } else {
      assert sep + rest == rest;
    }
  }

  /** A simple word followed by a separator or the end is one token. */
  lemma LexSimpleWord(w: string, rest: string)
    requires SimpleWord(w)
    requires rest == "" || IsSep(rest[0])
    ensures Lex(w + rest) == [w] + Lex(rest)
  {
    var s := w + rest;
    assert s[..|w|] == w && s[|w|..] == rest;
    if w != "" && Plain(w) {
      PlainPrefixWordLen(s, |w|);
    } else {
      assert WordLen(s) == 0;
      CloseLenAt(s[1..], |w| - 2);
      assert TokenEnd(s) == |w|;
    }
  }

  /**
   * A parameter with a quoted value, such as realm="a, b", is one token:
   * the separators inside the quotes stay in it and the closing quote ends it.
   */
  lemma LexQuotedParameter(p: string, q: string, rest: string)
    requires Plain(p)
    requires |q| >= 2 && q[0] == '"' && q[|q| - 1] == '"' && forall k :: 1 <= k < |q| - 1 ==> q[k] != '"'
    requires rest == "" || IsSep(rest[0])
    ensures Lex(p + q + rest) == [p + q] + Lex(rest)
  {
    var w := p + q;
    var s := w + rest;
    assert s[..|w|] == w && s[|w|..] == rest;
    assert forall j :: 0 <= j < |p| ==> s[j] == p[j];
    assert s[|p|] == '"';
    PlainPrefixWordLen(s, |p|);
    var t := s[|p| + 1..];
    assert forall j :: 0 <= j < |q| - 2 ==> t[j] == q[j + 1];
    assert t[|q| - 2] == '"';
    CloseLenAt(t, |q| - 2);
    assert TokenEnd(s) == |w|;
  }

  /** Joining simple words and tokenizing gives the words back. */
  lemma {:induction false} LexJoin(ws: seq<string>, sep: string)
    requires forall i :: 0 <= i < |ws| ==> SimpleWord(ws[i])
    requires Separator(sep)
    ensures Lex(Join(ws, sep)) == ws
  {
    if |ws| == 1 {
      LexSimpleWord(ws[0], "");
      assert ws[0] + "" == ws[0];
    } else if |ws| > 1 {
      var rest := sep + Join(ws[1..], sep);
      LexSimpleWord(ws[0], rest);
      assert Join(ws, sep) == ws[0] + rest;
      LexSkipsSeparators(sep, Join(ws[1..], sep));
      LexJoin(ws[1..], sep);
    }
  }

  // ---------------------------------------------------------------------
  // Choosing the auth type from a response
  // ---------------------------------------------------------------------

  /** The lower-case token by which a server offers digest, NTLM or basic. */
  function SchemeToken(t: AuthType): string
  {
    match t
    case Digest => "digest"
    case Ntlm => "ntlm"
    case Basic => "basic"
    case _ => ""
  }

  /** How secure a scheme is thought to be; only digest, NTLM and basic rank. */
  function Rank(t: AuthType): nat
  {
    match t
    case Digest => 3
    case Ntlm => 2
    case Basic => 1
    case _ => 0
  }

  /** The most secure of digest, NTLM and basic among the tokens of one header. */
  function SchemeOf(vals: seq<string>): (r: Option<AuthType>)
    ensures r.None? <==> "digest" !in vals && "ntlm" !in vals && "basic" !in vals
    ensures r.Some? ==> Rank(r.value) > 0 && SchemeToken(r.value) in vals
    ensures r.Some? ==> forall t :: Rank(t) > 0 && SchemeToken(t) in vals ==> Rank(t) <= Rank(r.value)
  {
    if "digest" in vals then Some(Digest)
    else if "ntlm" in vals then Some(Ntlm)
    else if "basic" in vals then Some(Basic)
    else None
  }

  /** One response header, name and value. */
  type Header = (string, string)

  predicate IsAuthenticateHeader(h: Header)
  {
    Lower(h.0) == "www-authenticate"
  }

  /** The scheme a header offers, if it is a WWW-Authenticate header that offers one. */
  function Offered(h: Header): Option<AuthType>
  {
    if IsAuthenticateHeader(h) then SchemeOf(Lex(Lower(h.1))) else None
  }

  /** The header loop of get_auth_method_from_response: the first header that offers a scheme decides. */
  function AuthFromHeaders(hs: seq<Header>): Result<AuthType>
  {
    if |hs| == 0 then Failure(UnauthorizedError)
    else if Offered(hs[0]).Some? then Ok(Offered(hs[0]).value)
    else AuthFromHeaders(hs[1..])
  }

  /** get_auth_method_from_response with the realm logging left out. */
  function AuthMethodFromResponse(status: int, hs: seq<Header>): Result<AuthType>
  {
    if status == 200 then Ok(NoAuth) else AuthFromHeaders(hs)
  }

  /**
   * The header loop decides by the first header offering a scheme, fails
   * only with UnauthorizedError and only when no header offers one.
   */
  lemma {:induction false} AuthFromHeadersFirstOffer(hs: seq<Header>)
    ensures AuthFromHeaders(hs).Ok? <==> exists i :: 0 <= i < |hs| && Offered(hs[i]).Some?
    ensures AuthFromHeaders(hs).Failure? ==> AuthFromHeaders(hs).error == UnauthorizedError
    ensures AuthFromHeaders(hs).Ok? ==>
      exists i :: 0 <= i < |hs| && Offered(hs[i]) == Some(AuthFromHeaders(hs).value)
    ensures forall i :: (0 <= i < |hs| && Offered(hs[i]).Some? && (forall j :: 0 <= j < i ==> Offered(hs[j]).None?)
                         ==> AuthFromHeaders(hs) == Ok(Offered(hs[i]).value))
  {
    if |hs| > 0 {
      AuthFromHeadersFirstOffer(hs[1..]);
      if Offered(hs[0]).None? {
        forall i | 0 <= i < |hs| && Offered(hs[i]).Some? && (forall j :: 0 <= j < i ==> Offered(hs[j]).None?)
          ensures AuthFromHeaders(hs) == Ok(Offered(hs[i]).value)
        {
          assert i > 0 && hs[1..][i - 1] == hs[i];
          assert forall j :: 0 <= j < i - 1 ==> hs[1..][j] == hs[j + 1];
        }
        if exists i :: 0 <= i < |hs| && Offered(hs[i]).Some? {
          var i :| 0 <= i < |hs| && Offered(hs[i]).Some?;
          assert hs[1..][i - 1] == hs[i];
        }
        if AuthFromHeaders(hs[1..]).Ok? {
          var i :| 0 <= i < |hs[1..]| && Offered(hs[1..][i]) == Some(AuthFromHeaders(hs[1..]).value);
          assert hs[i + 1] == hs[1..][i];
        }
      }
    }
  }

  /** A 200 means no auth; otherwise the outcome is an offered scheme or UnauthorizedError. */
  lemma AuthMethodOutcomes(status: int, hs: seq<Header>)
    ensures status == 200 ==> AuthMethodFromResponse(status, hs) == Ok(NoAuth)
    ensures status != 200 && AuthMethodFromResponse(status, hs).Ok? ==>
      exists i :: 0 <= i < |hs| && Offered(hs[i]) == Some(AuthMethodFromResponse(status, hs).value)
    ensures AuthMethodFromResponse(status, hs).Failure? ==>
      status != 200 && AuthMethodFromResponse(status, hs).error == UnauthorizedError
      && forall i :: 0 <= i < |hs| ==> Offered(hs[i]).None?
  {
    AuthFromHeadersFirstOffer(hs);
  }

  /** get_auth_method_from_response: walk the headers, tokenize each authenticate value, return the first scheme offered. */
  method GetAuthMethodFromResponse(status: int, hs: seq<Header>) returns (r: Result<AuthType>)
    ensures r == AuthMethodFromResponse(status, hs)
  {
    if status == 200 {
      return Ok(NoAuth);
    }
    for i := 0 to |hs|
      invariant AuthFromHeaders(hs[i..]) == AuthFromHeaders(hs)
    {
      assert hs[i..][1..] == hs[i + 1..];
      var (key, val) := hs[i];
      if Lower(key) == "www-authenticate" {
        var vals := Tokenize(Lower(val));
        var scheme := SchemeOf(vals);
        if scheme.Some? {
          return Ok(scheme.value);
        }
      }
    }
    return Failure(UnauthorizedError);
  }

  // ---------------------------------------------------------------------
  // The realm logging as written
  // ---------------------------------------------------------------------

  /** A token the realm logging reads as 'realm=...' but which holds no '='. */
  predicate RealmTokenWithoutValue(v: string)
  {
    |v| >= 5 && v[..5] == "realm" && '=' !in v
  }

  /** The header loop as written, where splitting a realm token on '=' and taking part 1 raises IndexError. */
  function AuthFromHeadersAsWritten(hs: seq<Header>): Result<AuthType>
  {
    if |hs| == 0 then Failure(UnauthorizedError)
    else if IsAuthenticateHeader(hs[0]) && exists v :: v in Lex(Lower(hs[0].1)) && RealmTokenWithoutValue(v) then
      Failure(IndexError)
    else if Offered(hs[0]).Some? then Ok(Offered(hs[0]).value)
    else AuthFromHeadersAsWritten(hs[1..])
  }

  function AuthMethodAsWritten(status: int, hs: seq<Header>): Result<AuthType>
  {
    if status == 200 then Ok(NoAuth) else AuthFromHeadersAsWritten(hs)
  }

  /** Where no authenticate header carries a bare realm token the code as written and the corrected one agree. */
  lemma {:induction false} AsWrittenAgreesWithoutBareRealm(hs: seq<Header>)
    requires forall i, v :: (0 <= i < |hs| && IsAuthenticateHeader(hs[i]) && v in Lex(Lower(hs[i].1))
                             ==> !RealmTokenWithoutValue(v))
    ensures AuthFromHeadersAsWritten(hs) == AuthFromHeaders(hs)
  {
    if |hs| > 0 {
      assert forall i :: 0 <= i < |hs[1..]| ==> hs[1..][i] == hs[i + 1];
      AsWrittenAgreesWithoutBareRealm(hs[1..]);
    }
  }

  /**
   * A WWW-Authenticate value whose tokens are those of 'Basic realm = "x"'
   * (whitespace around '=' is allowed in an HTTP challenge) makes the code
   * as written raise IndexError on the token 'realm', where the corrected
   * loop chooses basic. BareRealmTokens shows that value tokenizes so.
   */
  lemma BareRealmRaisesIndexError(name: string, value: string)
    requires IsAuthenticateHeader((name, value)) && Lex(Lower(value)) == BARE_REALM_TOKENS
    ensures AuthMethodAsWritten(401, [(name, value)]) == Failure(IndexError)
    ensures AuthMethodFromResponse(401, [(name, value)]) == Ok(Basic)
  {
    BareRealmTokenFacts();
    assert BARE_REALM_TOKENS[1] in Lex(Lower(value));
  }

  /** Those tokens offer basic, and their second one is a realm token without a value. */
  lemma BareRealmTokenFacts()
    ensures RealmTokenWithoutValue(BARE_REALM_TOKENS[1])
    ensures SchemeOf(BARE_REALM_TOKENS) == Some(Basic)
  {
    assert forall w :: w in BARE_REALM_TOKENS ==> |w| != 6 && |w| != 4;
  }

  /** The header the server names its schemes in, as it is usually spelled. */
  lemma AuthenticateHeaderName()
    ensures IsAuthenticateHeader(("WWW-Authenticate", ""))
  {
    assert Lower("WWW-Authenticate") == "www-authenticate";
  }

  const BARE_REALM_TOKENS: seq<string> := ["basic", "realm", "=", "\"x\""]

  lemma BareRealmTokens()
    ensures Lex(Lower("Basic realm = \"x\"")) == BARE_REALM_TOKENS
  {
    BareRealmValue();
    LexJoin(BARE_REALM_TOKENS, " ");
  }

  lemma BareRealmValue()
    ensures Lower("Basic realm = \"x\"") == Join(BARE_REALM_TOKENS, " ")
  {
  }

  /** Two schemes in one header value: the more secure one wins. */
  lemma NegotiateNtlmChoosesNtlm(name: string, value: string)
    requires IsAuthenticateHeader((name, value)) && Lower(value) == Join(["negotiate", "ntlm"], ", ")
    ensures AuthMethodFromResponse(401, [(name, value)]) == Ok(Ntlm)
  {
    LexJoin(["negotiate", "ntlm"], ", ");
  }

  /** 'Negotiate, NTLM' is such a value. */
  lemma NegotiateNtlmValue()
    ensures Lower("Negotiate, NTLM") == Join(["negotiate", "ntlm"], ", ")
  {
  }
}
