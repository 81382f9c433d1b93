/** The repair pass applied to every responder reply before it is decoded (app/util.py). */
module Repair {
  import opened Text
  import opened Results

  /** `s.replace("\n", "")`. */
  function StripNewlines(s: string): (r: string)
    ensures '\n' !in r
    ensures |r| <= |s|
  {
    if s == [] then [] else (if s[0] == '\n' then [] else [s[0]]) + StripNewlines(s[1..])
  }

  /** The lookahead `(?=\s*[\]}])`: zero or more whitespace characters, then a closing bracket or brace. */
  predicate FollowedByClose(t: string) {
    t != [] && (IsCloser(t[0]) || (IsWhitespace(t[0]) && FollowedByClose(t[1..])))
  }

  /** The characters the lookahead accepts after the whitespace: `]` and `}`. */
  predicate IsCloser(c: char) {
    c == ']' || c == '}'
  }

  /** `re.sub(r",(?=\s*[\]}])", "", t)`: one left-to-right pass that deletes every comma whose
      lookahead, taken in `t` itself, sees a closing bracket after optional whitespace. */
  function RemoveTrailingCommas(t: string): (r: string)
    ensures |r| <= |t|
    ensures ',' !in t ==> r == t
  {
    if t == [] then []
    else (if t[0] == ',' && FollowedByClose(t[1..]) then [] else [t[0]]) + RemoveTrailingCommas(t[1..])
  }

  /** `fix_json`: newline removal, then trailing-comma removal. */
  function FixJson(s: string): (r: string)
    ensures '\n' !in r
    ensures |r| <= |s|
  {
    var t := StripNewlines(s);
    RemoveTrailingCommasCounts(t, '\n');
    assert multiset(t)['\n'] == 0;
    RemoveTrailingCommas(t)
  }

  /** `load_malformed_json`: JSON decoding, which is not modelled, is the parameter `decode`. */
  function LoadMalformedJson<T>(decode: string -> Result<T>, s: string): (r: Result<T>)
    ensures '\n' !in s && NoTrailingComma(s) ==> r == decode(s)
  {
    if '\n' !in s && NoTrailingComma(s) then CleanTextUnchanged(s); decode(FixJson(s))
    else decode(FixJson(s))
  }

  /** `a` can be obtained from `b` by deleting characters. */
  predicate IsSubsequence(a: string, b: string) {
    a == [] || (b != [] && ((a[0] == b[0] && IsSubsequence(a[1..], b[1..])) || IsSubsequence(a, b[1..])))
  }

  /** No comma of `t` is followed by optional whitespace and a closing bracket. */
  predicate NoTrailingComma(t: string) {
    forall i :: 0 <= i < |t| ==> (t[i] == ',' ==> !FollowedByClose(t[i + 1..]))
  }

  // ---------------------------------------------------------------------------------------------
  // Lemmas

  /** The recursive lookahead means what the pattern `\s*[\]}]` says: some `]` or `}` is preceded
      by whitespace only. */
  lemma {:induction false} FollowedByCloseIff(t: string)
    ensures FollowedByClose(t) <==>
      exists k :: 0 <= k < |t| && IsCloser(t[k]) && forall j :: 0 <= j < k ==> IsWhitespace(t[j])
  {
    if t != [] && !IsCloser(t[0]) {
      if IsWhitespace(t[0]) {
        FollowedByCloseIff(t[1..]);
        if FollowedByClose(t) {
          var k :| 0 <= k < |t[1..]| && IsCloser(t[1..][k]) && forall j :: 0 <= j < k ==> IsWhitespace(t[1..][j]);
          forall j | 0 <= j < k + 1 ensures IsWhitespace(t[j]) {
            if j > 0 { assert t[j] == t[1..][j - 1]; }
          }
        }
        if exists k :: 0 <= k < |t| && IsCloser(t[k]) && forall j :: 0 <= j < k ==> IsWhitespace(t[j]) {
          var k :| 0 <= k < |t| && IsCloser(t[k]) && forall j :: 0 <= j < k ==> IsWhitespace(t[j]);
          assert IsCloser(t[1..][k - 1]);
          forall j | 0 <= j < k - 1 ensures IsWhitespace(t[1..][j]) {
            assert t[1..][j] == t[j + 1];
          }
        }
      } else {
        forall k | 0 <= k < |t| && IsCloser(t[k]) ensures !(forall j :: 0 <= j < k ==> IsWhitespace(t[j])) {
          assert k > 0 && !IsWhitespace(t[0]);
        }
      }
    }
  }

  lemma {:induction false} SubsequenceTransitive(a: string, b: string, c: string)
    requires IsSubsequence(a, b) && IsSubsequence(b, c)
    ensures IsSubsequence(a, c)
    decreases |c|
  {
    if a == [] {
    } else if IsSubsequence(b, c[1..]) {
      SubsequenceTransitive(a, b, c[1..]);
    } else {
      assert b[0] == c[0] && IsSubsequence(b[1..], c[1..]);
      if a[0] == b[0] && IsSubsequence(a[1..], b[1..]) {
        SubsequenceTransitive(a[1..], b[1..], c[1..]);
      } else {
        SubsequenceTransitive(a, b[1..], c[1..]);
      }
    }
  }

  lemma {:induction false} StripNewlinesIsSubsequence(s: string)
    ensures IsSubsequence(StripNewlines(s), s)
  {
    if s != [] {
      StripNewlinesIsSubsequence(s[1..]);
      var r := StripNewlines(s);
      if s[0] == '\n' {
        assert r == StripNewlines(s[1..]);
      } else {
        assert r[0] == s[0] && r[1..] == StripNewlines(s[1..]);
      }
    }
  }

  lemma {:induction false} RemoveTrailingCommasIsSubsequence(t: string)
    ensures IsSubsequence(RemoveTrailingCommas(t), t)
  {
    if t != [] {
      RemoveTrailingCommasIsSubsequence(t[1..]);
      var r := RemoveTrailingCommas(t);
      if t[0] == ',' && FollowedByClose(t[1..]) {
        assert r == RemoveTrailingCommas(t[1..]);
      } else {
        assert r[0] == t[0] && r[1..] == RemoveTrailingCommas(t[1..]);
      }
    }
  }

  /** Only commas are deleted by the regex pass: every other character keeps its count. */
  lemma {:induction false} RemoveTrailingCommasCounts(t: string, c: char)
    ensures c != ',' ==> Count(c, RemoveTrailingCommas(t)) == Count(c, t)
    ensures Count(c, RemoveTrailingCommas(t)) <= Count(c, t)
  {
    if t != [] {
      RemoveTrailingCommasCounts(t[1..], c);
      assert t == [t[0]] + t[1..];
    }
  }

  /** The repaired text is the input with some characters deleted, and the deleted characters are
      line feeds and commas only. */
  lemma FixJsonDeletesOnlyNewlinesAndCommas(s: string)
    ensures IsSubsequence(FixJson(s), s)
    ensures forall c :: c != '\n' && c != ',' ==> Count(c, FixJson(s)) == Count(c, s)
  {
    StripNewlinesIsSubsequence(s);
    RemoveTrailingCommasIsSubsequence(StripNewlines(s));
    SubsequenceTransitive(FixJson(s), StripNewlines(s), s);
    forall c | c != '\n' && c != ','
      ensures Count(c, FixJson(s)) == Count(c, s)
    {
      RemoveTrailingCommasCounts(StripNewlines(s), c);
      StripNewlinesCounts(s, c);
    }
  }

  /** Newline removal deletes line feeds and nothing else. */
  lemma {:induction false} StripNewlinesCounts(s: string, c: char)
    requires c != '\n'
    ensures Count(c, StripNewlines(s)) == Count(c, s)
  {
    if s != [] {
      StripNewlinesCounts(s[1..], c);
      assert s == [s[0]] + s[1..];
    }
  }

  /** The lookahead cannot see past a character that is neither whitespace nor a closer. */
  lemma {:induction false} LookaheadStopsAtBlocker(w: string, v: string)
    requires v == [] || (!IsWhitespace(v[0]) && v[0] != ']' && v[0] != '}')
    ensures FollowedByClose(w + v) == FollowedByClose(w)
  {
    if w != [] {
      assert (w + v)[1..] == w[1..] + v;
      LookaheadStopsAtBlocker(w[1..], v);
    }
  }

  /** The pass is local: text may be split in front of any character that is neither whitespace
      nor a closing bracket, and the two parts repaired on their own. */
  lemma {:induction false} RepairIsLocal(u: string, v: string)
    requires v == [] || (!IsWhitespace(v[0]) && v[0] != ']' && v[0] != '}')
    ensures RemoveTrailingCommas(u + v) == RemoveTrailingCommas(u) + RemoveTrailingCommas(v)
  {
    if u == [] {
      assert u + v == v;
    } else {
      assert (u + v)[1..] == u[1..] + v;
      LookaheadStopsAtBlocker(u[1..], v);
      RepairIsLocal(u[1..], v);
    }
  }

  lemma StripNewlinesAppend(a: string, b: string)
    ensures StripNewlines(a + b) == StripNewlines(a) + StripNewlines(b)
  {
    if a == [] {
      assert a + b == b;
    } else {
      assert (a + b)[1..] == a[1..] + b;
      StripNewlinesAppend(a[1..], b);
    }
  }

  /** The fate of one comma: it is deleted exactly when, once line feeds are gone, the text after
      it is optional whitespace followed by `]` or `}`; the text on either side is repaired on
      its own. */
  lemma CommaDeletedIff(u: string, v: string)
    ensures FixJson(u + [','] + v)
         == FixJson(u) + (if FollowedByClose(StripNewlines(v)) then [] else [',']) + FixJson(v)
  {
    var tu, tv := StripNewlines(u), StripNewlines(v);
    StripNewlinesComma(u, v);
    RepairAtComma(tu, tv);
  }

  lemma StripNewlinesComma(u: string, v: string)
    ensures StripNewlines(u + [','] + v) == StripNewlines(u) + ([','] + StripNewlines(v))
  {
    var uc := u + [','];
    var su, sv := StripNewlines(u), StripNewlines(v);
    assert StripNewlines(uc) == su + [','] by {
      StripNewlinesAppend(u, [',']);
      StripNewlinesOfComma();
    }
    assert StripNewlines(uc + v) == (su + [',']) + sv by {
      StripNewlinesAppend(uc, v);
    }
    assert (su + [',']) + sv == su + ([','] + sv);
  }

  lemma StripNewlinesOfComma()
    ensures StripNewlines([',']) == [',']
  {
    assert [','][1..] == [];
  }

  lemma RepairAtComma(tu: string, tv: string)
    ensures RemoveTrailingCommas(tu + ([','] + tv))
         == RemoveTrailingCommas(tu) + (if FollowedByClose(tv) then [] else [',']) + RemoveTrailingCommas(tv)
  {
    var w := [','] + tv;
    assert w[0] == ',' && w[1..] == tv;
    assert RemoveTrailingCommas(w) == (if FollowedByClose(tv) then [] else [',']) + RemoveTrailingCommas(tv);
    RepairIsLocal(tu, w);
  }

  /** Text with no line feed and no trailing comma comes back unchanged. */
  lemma {:induction false} CleanTextUnchanged(s: string)
    requires '\n' !in s && NoTrailingComma(s)
    ensures FixJson(s) == s
  {
    StripNewlinesIdentity(s);
    RemoveTrailingCommasIdentity(s);
  }

  lemma {:induction false} StripNewlinesIdentity(s: string)
    requires '\n' !in s
    ensures StripNewlines(s) == s
  {
    if s != [] {
      StripNewlinesIdentity(s[1..]);
    }
  }

  lemma {:induction false} RemoveTrailingCommasIdentity(t: string)
    requires NoTrailingComma(t)
    ensures RemoveTrailingCommas(t) == t
  {
    if t != [] {
      assert t[0] == ',' ==> !FollowedByClose(t[1..]);
      forall i | 0 <= i < |t[1..]| && t[1..][i] == ','
        ensures !FollowedByClose(t[1..][i + 1..])
      {
        assert t[1..][i + 1..] == t[i + 2..] && t[i + 1] == ',';
      }
      RemoveTrailingCommasIdentity(t[1..]);
    }
  }

  /** Text with neither line feeds nor commas is left alone. */
  lemma CommaFreeTextUnchanged(s: string)
    requires '\n' !in s && ',' !in s
    ensures FixJson(s) == s
  {
    CleanTextUnchanged(s);
  }

  // ---------------------------------------------------------------------------------------------
  // Concrete behaviour

  /** In text without line feeds or other commas, a comma right before a closer is the one
      character removed. */
  lemma CommaBeforeCloser(u: string, v: string)
    requires '\n' !in u && ',' !in u && '\n' !in v && ',' !in v
    requires v != [] && IsCloser(v[0])
    ensures FixJson(u + [','] + v) == u + v
  {
    CommaDeletedIff(u, v);
    CommaFreeTextUnchanged(u);
    CommaFreeTextUnchanged(v);
    StripNewlinesIdentity(v);
  }

  /** The answer reply with a trailing comma decodes as the reply without it. */
  lemma TrailingCommaAnswerRepaired<T>(decode: string -> Result<T>)
    ensures FixJson("{\"answer\": \"topics\",}") == "{\"answer\": \"topics\"}"
    ensures LoadMalformedJson(decode, "{\"answer\": \"topics\",}") == decode("{\"answer\": \"topics\"}")
  {
    var body := "{\"answer\": \"topics\"";
    assert '\n' !in body && ',' !in body;
    CommaBeforeCloser(body, "}");
    assert body + [','] + "}" == "{\"answer\": \"topics\",}";
    assert body + "}" == "{\"answer\": \"topics\"}";
  }

  /** A line feed between a comma and its closer does not save the comma. */
  lemma NewlineBeforeCloserIgnored()
    ensures FixJson(",\n ]") == " ]"
  {
    assert StripNewlines(",\n ]") == ", ]" by {
      StripNewlinesComma([], "\n ]");
      assert [] + [','] + "\n ]" == ",\n ]";
      assert StripNewlines("\n ]") == StripNewlines(" ]");
      StripNewlinesIdentity(" ]");
      assert StripNewlines([]) + ([','] + " ]") == ", ]";
    }
    assert RemoveTrailingCommas(", ]") == " ]" by {
      assert ", ]"[1..] == " ]";
      assert FollowedByClose(" ]");
      CommaFreeTextUnchanged(" ]");
      StripNewlinesIdentity(" ]");
    }
  }

  /** One pass only, so the repair is not idempotent: in ",,]" the first comma sees a comma,
      not a closer, and survives. */
  lemma RepairIsNotIdempotent()
    ensures FixJson(",,]") == ",]"
    ensures FixJson(FixJson(",,]")) == "]"
  {
    CommaDeletedIff([], ",]");
    assert ",,]" == [] + [','] + ",]";
    assert !FollowedByClose(",]");
    CommaDeletedIff([], "]");
    assert ",]" == [] + [','] + "]";
    assert FollowedByClose("]");
    CommaFreeTextUnchanged("]");
  }

  /** The pass does not know about JSON string literals: a comma inside quotes goes too. */
  lemma CommaInsideStringLiteralDeleted()
    ensures FixJson("\"a,}\"") == "\"a}\""
  {
    CommaBeforeCloser("\"a", "}\"");
    assert "\"a" + [','] + "}\"" == "\"a,}\"";
    assert "\"a" + "}\"" == "\"a}\"";
  }
}
