/** Substring search by LIKE: escapeLike of internal/query/query.go against the LIKE of the database. */
module Like {

  /** `%` stands for any text, `_` for any character, and a backslash takes the meaning from `%`,
      `_` and a backslash; before anything else it stands for itself. */
  predicate Matches(pattern: string, text: string)
    decreases |pattern| + |text|
  {
    if pattern == [] then text == []
    else if pattern[0] == '%' then
      Matches(pattern[1..], text) || (text != [] && Matches(pattern, text[1..]))
    else if text == [] then false
    else if pattern[0] == '_' then Matches(pattern[1..], text[1..])
    else if pattern[0] == '\\' && |pattern| > 1 && pattern[1] in {'%', '_', '\\'} then
      text[0] == pattern[1] && Matches(pattern[2..], text[1..])
    else text[0] == pattern[0] && Matches(pattern[1..], text[1..])
  }

  function EscapeChar(c: char): string {
    if c in {'%', '_', '\\'} then ['\\', c] else [c]
  }

  /** escapeLike. */
  function Escape(s: string): string {
    if s == [] then [] else EscapeChar(s[0]) + Escape(s[1..])
  }

  function Around(s: string): string {
    "%" + Escape(s) + "%"
  }

  /** `s` stands somewhere in the text. */
  predicate Contains(text: string, s: string) {
    exists i :: 0 <= i <= |text| && s <= text[i..]
  }

  lemma {:induction false} PercentMatchesAll(text: string)
    ensures Matches("%", text)
    decreases |text|
  {
    if text == [] {
      assert "%"[1..] == [];
    } else {
      PercentMatchesAll(text[1..]);
    }
  }

  lemma {:induction false} EscapedPrefix(s: string, text: string)
    ensures Matches(Escape(s) + "%", text) <==> s <= text
    decreases |s|
  {
    if s == [] {
      assert Escape(s) + "%" == "%";
      PercentMatchesAll(text);
    } else {
      var pattern := Escape(s) + "%";
      assert pattern == EscapeChar(s[0]) + (Escape(s[1..]) + "%");
      assert pattern[|EscapeChar(s[0])|..] == Escape(s[1..]) + "%";
      if text != [] {
        EscapedPrefix(s[1..], text[1..]);
        assert s <= text <==> s[0] == text[0] && s[1..] <= text[1..];
      }
    }
  }

  /** The pattern built for a substring matches a text exactly when the text contains it. */
  lemma {:induction false} EscapeFaithful(s: string, text: string)
    ensures Matches(Around(s), text) <==> Contains(text, s)
    decreases |text|
  {
    var pattern := Around(s);
    assert pattern[0] == '%' && pattern[1..] == Escape(s) + "%";
    EscapedPrefix(s, text);
    assert text[0..] == text;
    if text != [] {
      EscapeFaithful(s, text[1..]);
      if Contains(text[1..], s) {
        var i :| 0 <= i <= |text[1..]| && s <= text[1..][i..];
        assert text[1..][i..] == text[i + 1..];
      }
      if Contains(text, s) && !(s <= text) {
        var i :| 0 <= i <= |text| && s <= text[i..];
        assert text[1..][i - 1..] == text[i..];
      }
    }
  }

  /** Without the escape the wildcards would find what is not there. */
  lemma WildcardsFind()
    ensures Matches("%" + "_" + "%", "a") && !Contains("a", "_")
    ensures Matches("%" + "%" + "%", "a") && !Contains("a", "%")
  {
    assert "%_%"[1..] == "_%" && "_%"[1..] == "%" && "%%%"[1..] == "%%" && "%%"[1..] == "%";
    PercentMatchesAll("");
    PercentMatchesAll("a");
    assert Matches("_%", "a");
  }
}
