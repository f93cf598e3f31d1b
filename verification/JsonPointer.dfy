/** Escaping of JSON pointer tokens (section 3 of RFC 6901). */
module JsonPointer {
  function ReplaceChar(s: string, c: char, to: string): string {
    if s == [] then []
    else (if s[0] == c then to else [s[0]]) + ReplaceChar(s[1..], c, to)
  }

  function ReplacePair(s: string, a: char, b: char, to: char): string {
    if |s| < 2 then s
    else if s[0] == a && s[1] == b then [to] + ReplacePair(s[2..], a, b, to)
    else [s[0]] + ReplacePair(s[1..], a, b, to)
  }

  function EscapeToken(token: string): string {
    ReplaceChar(ReplaceChar(token, '~', "~0"), '/', "~1")
  }

  function UnescapeToken(token: string): string {
    ReplacePair(ReplacePair(token, '~', '1', '/'), '~', '0', '~')
  }

  lemma {:induction false} ReplaceCharConcat(s: string, t: string, c: char, to: string)
    ensures ReplaceChar(s + t, c, to) == ReplaceChar(s, c, to) + ReplaceChar(t, c, to)
  {
    if s == [] {
      assert s + t == t;
    } else {
      assert (s + t)[1..] == s[1..] + t;
      ReplaceCharConcat(s[1..], t, c, to);
    }
  }

  /** Escaping works character by character. */
  lemma EscapeStep(token: string)
    requires token != []
    ensures EscapeToken(token) ==
            (if token[0] == '~' then "~0" else if token[0] == '/' then "~1" else [token[0]]) +
            EscapeToken(token[1..])
  {
    var head := if token[0] == '~' then "~0" else [token[0]];
    ReplaceCharConcat(head, ReplaceChar(token[1..], '~', "~0"), '/', "~1");
    assert ReplaceChar("~0", '/', "~1") == "~0" by {
      assert "~0"[1..] == "0" && "0"[1..] == "";
    }
    assert [token[0]][1..] == "";
  }

  lemma {:induction false} UnescapeSlashes(token: string)
    ensures ReplacePair(EscapeToken(token), '~', '1', '/') == ReplaceChar(token, '~', "~0")
  {
    if token != [] {
      EscapeStep(token);
      UnescapeSlashes(token[1..]);
      var e := EscapeToken(token);
      var rest := EscapeToken(token[1..]);
      if token[0] == '~' {
        assert e == ['~', '0'] + rest && e[1..] == ['0'] + rest && e[1..][1..] == rest;
        UnescapeHead('0', rest);
      } else if token[0] == '/' {
        assert e[2..] == rest;
      } else {
        assert e[1..] == rest;
        UnescapeHead(token[0], rest);
      }
    }
  }

  lemma UnescapeHead(c: char, rest: string)
    requires c != '~'
    ensures ReplacePair([c] + rest, '~', '1', '/') == [c] + ReplacePair(rest, '~', '1', '/')
  {
    assert ([c] + rest)[1..] == rest;
    if rest == [] {
      assert [c] + rest == [c];
    }
  }

  lemma {:induction false} UnescapeTildes(token: string)
    ensures ReplacePair(ReplaceChar(token, '~', "~0"), '~', '0', '~') == token
  {
    if token != [] {
      UnescapeTildes(token[1..]);
      var rest := ReplaceChar(token[1..], '~', "~0");
      if token[0] == '~' {
        assert (['~', '0'] + rest)[2..] == rest;
      } else {
        assert ([token[0]] + rest)[1..] == rest;
        if rest == [] {
          assert token[1..] == [];
        }
      }
      assert token == [token[0]] + token[1..];
    }
  }

  /** Unescaping inverts escaping on every token. */
  lemma UnescapeEscape(token: string)
    ensures UnescapeToken(EscapeToken(token)) == token
  {
    UnescapeSlashes(token);
    UnescapeTildes(token);
  }

  lemma {:induction false} EscapedHasNoSlash(token: string)
    ensures '/' !in EscapeToken(token)
  {
    if token != [] {
      EscapeStep(token);
      EscapedHasNoSlash(token[1..]);
    }
  }

  lemma {:induction false} UnescapePlain(token: string)
    requires '~' !in token
    ensures UnescapeToken(token) == token
  {
    ReplacePairPlain(token, '1', '/');
    ReplacePairPlain(token, '0', '~');
  }

  lemma {:induction false} ReplacePairPlain(token: string, b: char, to: char)
    requires '~' !in token
    ensures ReplacePair(token, '~', b, to) == token
  {
    if |token| >= 2 {
      assert token[0] in token;
      forall c | c in token[1..] ensures c in token {}
      ReplacePairPlain(token[1..], b, to);
      assert token == [token[0]] + token[1..];
    }
  }

  lemma {:induction false} EscapePlain(token: string)
    requires '~' !in token && '/' !in token
    ensures EscapeToken(token) == token
  {
    if token != [] {
      EscapeStep(token);
      assert token[0] in token;
      forall c | c in token[1..] ensures c in token {}
      EscapePlain(token[1..]);
      assert token == [token[0]] + token[1..];
    }
  }
}
