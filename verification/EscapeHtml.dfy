/** The dashboard's HTML escaping. */
module EscapeHtml {

  /** The replacement for one character; any other stands for itself. */
  function Entity(c: char): string {
    if c == '&' then "&amp;"
    else if c == '<' then "&lt;"
    else if c == '>' then "&gt;"
    else if c == '"' then "&quot;"
    else if c == '\'' then "&#39;"
    else [c]
  }

  /** `escapeHtml`: one pass over the string. */
  function Escape(s: string): string {
    if s == "" then "" else Entity(s[0]) + Escape(s[1..])
  }

  const SPECIAL: seq<char> := ['&', '<', '>', '"', '\'']

  ghost predicate IsEntity(s: string) {
    exists c :: c in SPECIAL && s == Entity(c)
  }

  /** Reads the five entities back and every other character as itself. */
  function Unescape(s: string): string
    decreases |s|
  {
    if s == "" then ""
    else if "&amp;" <= s then "&" + Unescape(s[5..])
    else if "&lt;" <= s then "<" + Unescape(s[4..])
    else if "&gt;" <= s then ">" + Unescape(s[4..])
    else if "&quot;" <= s then "\"" + Unescape(s[6..])
    else if "&#39;" <= s then "'" + Unescape(s[5..])
    else [s[0]] + Unescape(s[1..])
  }

  /** No entity is a prefix of another, nor begins with a character that stands for itself. */
  lemma EntityStarts(c: char, s: string)
    requires Entity(c) <= s
    ensures c == '&' || !("&amp;" <= s)
    ensures c == '<' || !("&lt;" <= s)
    ensures c == '>' || !("&gt;" <= s)
    ensures c == '"' || !("&quot;" <= s)
    ensures c == '\'' || !("&#39;" <= s)
  {
    assert s[0] == Entity(c)[0];
    if c in SPECIAL {
      assert s[1] == Entity(c)[1] && s[2] == Entity(c)[2];
    }
  }

  lemma UnescapeOne(c: char, rest: string)
    ensures Unescape(Entity(c) + rest) == [c] + Unescape(rest)
  {
    var s := Entity(c) + rest;
    EntityStarts(c, s);
    assert s[|Entity(c)|..] == rest;
  }

  lemma {:induction false} EscapeGrows(s: string)
    ensures |Escape(s)| >= |s|
    ensures |Escape(s)| == |s| ==> forall i :: 0 <= i < |s| ==> s[i] !in SPECIAL
  {
    if s == "" {
    } else {
      EscapeGrows(s[1..]);
      assert |Entity(s[0])| >= 1 && (s[0] in SPECIAL ==> |Entity(s[0])| > 1);
      if |Escape(s)| == |s| {
        forall i | 0 <= i < |s| ensures s[i] !in SPECIAL {
          assert i > 0 ==> s[i] == s[1..][i - 1];
        }
      }
    }
  }

  /** Exactly the text without any of the five characters is left as it is. */
  lemma {:induction false} EscapeFixesIff(s: string)
    ensures Escape(s) == s <==> forall i :: 0 <= i < |s| ==> s[i] !in {'&', '<', '>', '"', '\''}
  {
    EscapeGrows(s);
    assert forall c :: c in SPECIAL <==> c in {'&', '<', '>', '"', '\''};
    if s == "" {
    } else {
      EscapeFixesIff(s[1..]);
      if forall i :: 0 <= i < |s| ==> s[i] !in {'&', '<', '>', '"', '\''} {
        assert forall i :: 0 <= i < |s[1..]| ==> s[1..][i] == s[i + 1];
        assert s == [s[0]] + s[1..];
      }
    }
  }

  /** Escaping loses nothing. */
  lemma {:induction false} UnescapeEscape(s: string)
    ensures Unescape(Escape(s)) == s
  {
    if s == "" {
    } else {
      UnescapeEscape(s[1..]);
      UnescapeOne(s[0], Escape(s[1..]));
    }
  }

  lemma EscapeInjective(a: string, b: string)
    requires Escape(a) == Escape(b)
    ensures a == b
  {
    UnescapeEscape(a);
    UnescapeEscape(b);
  }

  /** The escaped text has no character that could open a tag or close an attribute. */
  lemma {:induction false} EscapedIsInert(s: string)
    ensures forall c :: c in ['<', '>', '"', '\''] ==> c !in Escape(s)
  {
    if s == "" {
    } else {
      EscapedIsInert(s[1..]);
      EntityShape(s[0]);
    }
  }

  lemma EntityShape(c: char)
    ensures Entity(c) != "" && forall k :: 1 <= k < |Entity(c)| ==> Entity(c)[k] != '&'
    ensures Entity(c)[0] == '&' ==> c in SPECIAL
    ensures forall d :: d in ['<', '>', '"', '\''] ==> d !in Entity(c)
  {
    assert SPECIAL[0] == '&' && SPECIAL[1] == '<' && SPECIAL[2] == '>' && SPECIAL[3] == '"' && SPECIAL[4] == '\'';
  }

  ghost predicate BeginsEntity(s: string, i: nat) {
    exists n :: i < n <= |s| && IsEntity(s[i..n])
  }

  lemma EntityShifts(head: string, tail: string, i: nat)
    requires BeginsEntity(tail, i)
    ensures BeginsEntity(head + tail, |head| + i)
  {
    var n :| i < n <= |tail| && IsEntity(tail[i..n]);
    assert (head + tail)[|head| + i..|head| + n] == tail[i..n];
  }

  lemma HeadBeginsEntity(c: char, tail: string, i: nat)
    requires i < |Entity(c)| && Entity(c)[i] == '&'
    ensures BeginsEntity(Entity(c) + tail, i)
  {
    EntityShape(c);
    assert (Entity(c) + tail)[0..|Entity(c)|] == Entity(c) && IsEntity(Entity(c));
  }

  /** Every ampersand in the escaped text begins one of the five entities. */
  lemma {:induction false} AmpersandsBeginEntities(s: string)
    ensures forall i :: 0 <= i < |Escape(s)| && Escape(s)[i] == '&' ==> BeginsEntity(Escape(s), i)
  {
    if s == "" {
    } else {
      var head, tail := Entity(s[0]), Escape(s[1..]);
      AmpersandsBeginEntities(s[1..]);
      forall i | 0 <= i < |head + tail| && (head + tail)[i] == '&' ensures BeginsEntity(head + tail, i) {
        if i < |head| {
          HeadBeginsEntity(s[0], tail, i);
        } else {
          EntityShifts(head, tail, i - |head|);
        }
      }
    }
  }
}
