/** Escaping a search text for LIKE: the pattern built from it finds exactly its literal occurrences.
    The matcher follows section 9.7.1 of the PostgreSQL manual, with backslash as escape character. */
module LikeSearch {

  // str.replace of one character
  function ReplaceChar(s: string, c: char, into: string): string {
    if s == "" then "" else ReplaceOne(s[0], c, into) + ReplaceChar(s[1..], c, into)
  }

  function ReplaceOne(x: char, c: char, into: string): string {
    if x == c then into else [x]
  }

  function EscapeLike(value: string): string {
    ReplaceChar(ReplaceChar(ReplaceChar(value, '\\', "\\\\"), '%', "\\%"), '_', "\\_")
  }

  predicate IsMeta(c: char) {
    c == '\\' || c == '%' || c == '_'
  }

  // One pass over the characters.
  function EscapeEach(s: string): string {
    if s == "" then "" else (if IsMeta(s[0]) then ['\\', s[0]] else [s[0]]) + EscapeEach(s[1..])
  }

  // Does the whole text match? A pattern that ends in a lone escape character is an error, never a match.
  predicate Like(pattern: string, text: string)
    decreases |pattern| + |text|
  {
    if pattern == "" then text == ""
    else if pattern[0] == '%' then Like(pattern[1..], text) || (text != "" && Like(pattern, text[1..]))
    else if pattern[0] == '_' then text != "" && Like(pattern[1..], text[1..])
    else if pattern[0] == '\\' then
      |pattern| >= 2 && text != "" && text[0] == pattern[1] && Like(pattern[2..], text[1..])
    else text != "" && text[0] == pattern[0] && Like(pattern[1..], text[1..])
  }

  predicate EndsInLoneEscape(pattern: string) {
    if pattern == "" then false
    else if pattern[0] == '\\' then |pattern| == 1 || EndsInLoneEscape(pattern[2..])
    else EndsInLoneEscape(pattern[1..])
  }

  // ILIKE folds the case of pattern and text, character by character.
  function Fold(fold: char -> char, s: string): (r: string)
    ensures |r| == |s|
  {
    if s == "" then "" else [fold(s[0])] + Fold(fold, s[1..])
  }

  // A case folding leaves the three special characters alone and makes nothing else into one.
  ghost predicate KeepsMeta(fold: char -> char) {
    forall c :: (IsMeta(c) ==> fold(c) == c) && (IsMeta(fold(c)) ==> IsMeta(c))
  }

  function SearchPattern(query: string): string {
    "%" + EscapeLike(query) + "%"
  }

  predicate ILike(fold: char -> char, pattern: string, text: string) {
    Like(Fold(fold, pattern), Fold(fold, text))
  }

  predicate OccursAt(q: string, s: string, i: nat) {
    i <= |s| && q <= s[i..]
  }

  ghost predicate OccursIn(q: string, s: string) {
    exists i: nat :: OccursAt(q, s, i)
  }

  lemma {:induction false} ThreeReplacesAreOnePass(s: string)
    ensures EscapeLike(s) == EscapeEach(s)
  {
    if s != "" {
      ThreeReplacesAreOnePass(s[1..]);
      var rest := ReplaceChar(s[1..], '\\', "\\\\");
      var head := if s[0] == '\\' then "\\\\" else [s[0]];
      ReplaceConcat(head, rest, '%', "\\%");
      var head2, rest2 := ReplaceChar(head, '%', "\\%"), ReplaceChar(rest, '%', "\\%");
      ReplaceConcat(head2, rest2, '_', "\\_");
      EscapeOne(s[0]);
    }
  }

  lemma EscapeOne(c: char)
    ensures ReplaceChar(ReplaceChar(if c == '\\' then "\\\\" else [c], '%', "\\%"), '_', "\\_")
            == if IsMeta(c) then ['\\', c] else [c]
  {
    assert [c][1..] == "" && "\\"[1..] == "" && "%"[1..] == "";
    if c == '\\' {
      assert "\\\\"[1..] == "\\";
      assert ReplaceChar("\\", '%', "\\%") == "\\" && ReplaceChar("\\", '_', "\\_") == "\\";
      assert ReplaceChar("\\\\", '%', "\\%") == "\\\\";
    } else if c == '%' {
      assert "\\%"[1..] == "%";
      assert ReplaceChar([c], '%', "\\%") == "\\%" && ReplaceChar("%", '_', "\\_") == "%";
    } else {
      assert ReplaceChar([c], '%', "\\%") == [c];
    }
  }

  lemma ReplaceCons(x: char, s: string, c: char, into: string)
    ensures ReplaceChar([x] + s, c, into) == ReplaceOne(x, c, into) + ReplaceChar(s, c, into)
  {
    assert ([x] + s)[1..] == s;
  }

  lemma Associates(a: string, b: string, c: string)
    ensures (a + b) + c == a + (b + c)
  {
  }

  lemma {:induction false} ReplaceConcat(a: string, b: string, c: char, into: string)
    ensures ReplaceChar(a + b, c, into) == ReplaceChar(a, c, into) + ReplaceChar(b, c, into)
  {
    if a == "" {
      assert a + b == b;
    } else {
      var x, tail := a[0], a[1..];
      assert a == [x] + tail;
      ReplaceConcat(tail, b, c, into);
      Associates([x], tail, b);
      ReplaceCons(x, tail, c, into);
      ReplaceCons(x, tail + b, c, into);
      Associates(ReplaceOne(x, c, into), ReplaceChar(tail, c, into), ReplaceChar(b, c, into));
    }
  }

  // Escaping in another order would not do: here the escapes of '%' are escaped again.
  lemma OrderMatters()
    ensures var wrong := ReplaceChar(ReplaceChar("%", '%', "\\%"), '\\', "\\\\");
            wrong == "\\\\%" && Like(wrong, "\\x") && !Like(wrong, "%")
  {
    assert "%"[1..] == "" && "\\%"[1..] == "%";
    assert ReplaceChar("%", '%', "\\%") == "\\%";
    assert ReplaceChar("%", '\\', "\\\\") == "%";
    var wrong := "\\\\%";
    assert wrong[2..] == "%" && "\\x"[1..] == "x" && "x"[1..] == "";
    assert Like("", "") && Like("%", "") && Like("%", "x");
  }

  lemma FoldCons(fold: char -> char, x: char, s: string)
    ensures Fold(fold, [x] + s) == [fold(x)] + Fold(fold, s)
  {
    assert ([x] + s)[1..] == s;
  }

  lemma {:induction false} FoldConcat(fold: char -> char, a: string, b: string)
    ensures Fold(fold, a + b) == Fold(fold, a) + Fold(fold, b)
  {
    if a == "" {
      assert a + b == b;
    } else {
      var x, tail := a[0], a[1..];
      assert a == [x] + tail;
      FoldConcat(fold, tail, b);
      Associates([x], tail, b);
      FoldCons(fold, x, tail);
      FoldCons(fold, x, tail + b);
      Associates([fold(x)], Fold(fold, tail), Fold(fold, b));
    }
  }

  // Folding an escaped text is escaping the folded text.
  lemma {:induction false} FoldEscape(fold: char -> char, s: string)
    requires KeepsMeta(fold)
    ensures Fold(fold, EscapeEach(s)) == EscapeEach(Fold(fold, s))
  {
    if s != "" {
      FoldEscape(fold, s[1..]);
      var head := if IsMeta(s[0]) then ['\\', s[0]] else [s[0]];
      FoldConcat(fold, head, EscapeEach(s[1..]));
      assert IsMeta('\\') && fold('\\') == '\\';
      assert head[1..] == if IsMeta(s[0]) then [s[0]] else "";
      assert [s[0]][1..] == "";
      assert Fold(fold, [s[0]]) == [fold(s[0])];
      assert Fold(fold, head) == if IsMeta(s[0]) then ['\\', fold(s[0])] else [fold(s[0])];
    }
  }

  lemma {:induction false} PercentMatchesAll(text: string)
    ensures Like("%", text)
  {
    assert "%"[1..] == "";
    if text != "" { PercentMatchesAll(text[1..]); }
  }

  // An escaped text followed by '%' matches exactly the texts that begin with it.
  lemma {:induction false} EscapedIsPrefix(q: string, text: string)
    ensures Like(EscapeEach(q) + "%", text) <==> q <= text
  {
    var pattern := EscapeEach(q) + "%";
    if q == "" {
      assert pattern == "%";
      PercentMatchesAll(text);
    } else {
      var rest := EscapeEach(q[1..]) + "%";
      assert pattern == (if IsMeta(q[0]) then ['\\', q[0]] else [q[0]]) + rest;
      if text != "" {
        EscapedIsPrefix(q[1..], text[1..]);
        if IsMeta(q[0]) {
          assert pattern[2..] == rest;
        } else {
          assert pattern[1..] == rest;
        }
        assert q == [q[0]] + q[1..] && text == [text[0]] + text[1..];
      }
    }
  }

  lemma OccursLater(q: string, s: string)
    requires s != ""
    ensures OccursIn(q, s) <==> q <= s || OccursIn(q, s[1..])
  {
    assert s[0..] == s;
    if OccursIn(q, s) {
      var i: nat :| OccursAt(q, s, i);
      if i > 0 {
        assert s[1..][i - 1..] == s[i..];
        assert OccursAt(q, s[1..], i - 1);
      }
    }
    if q <= s {
      assert OccursAt(q, s, 0);
    }
    if OccursIn(q, s[1..]) {
      var i: nat :| OccursAt(q, s[1..], i);
      assert s[1..][i..] == s[i + 1..];
      assert OccursAt(q, s, i + 1);
    }
  }

  lemma {:induction false} EscapedBetweenPercents(q: string, text: string)
    ensures Like("%" + EscapeEach(q) + "%", text) <==> OccursIn(q, text)
  {
    var pattern := "%" + EscapeEach(q) + "%";
    assert pattern[1..] == EscapeEach(q) + "%";
    EscapedIsPrefix(q, text);
    if text == "" {
      if q == "" { assert OccursAt(q, text, 0); }
    } else {
      EscapedBetweenPercents(q, text[1..]);
      OccursLater(q, text);
    }
  }

  // For every query and text: the search finds the text exactly when the query occurs in it literally, up to case.
  lemma SearchIsLiteral(fold: char -> char, query: string, text: string)
    requires KeepsMeta(fold)
    ensures ILike(fold, SearchPattern(query), text) <==> OccursIn(Fold(fold, query), Fold(fold, text))
  {
    ThreeReplacesAreOnePass(query);
    FoldEscape(fold, query);
    var e := EscapeEach(query);
    FoldConcat(fold, "%", e);
    FoldConcat(fold, "%" + e, "%");
    assert IsMeta('%') && fold('%') == '%';
    assert "%"[1..] == "";
    assert Fold(fold, "%") == "%";
    EscapedBetweenPercents(Fold(fold, query), Fold(fold, text));
  }

  // The pattern is always well-formed: no query can make the database reject it.
  lemma {:induction false} EscapedIsWellFormed(s: string, rest: string)
    ensures EndsInLoneEscape(EscapeEach(s) + rest) == EndsInLoneEscape(rest)
  {
    if s == "" {
      assert EscapeEach(s) + rest == rest;
    } else {
      EscapedIsWellFormed(s[1..], rest);
      SkipOne(s[0], EscapeEach(s[1..]) + rest);
      Associates(if IsMeta(s[0]) then ['\\', s[0]] else [s[0]], EscapeEach(s[1..]), rest);
    }
  }

  lemma SkipOne(c: char, rest: string)
    ensures EndsInLoneEscape((if IsMeta(c) then ['\\', c] else [c]) + rest) == EndsInLoneEscape(rest)
  {
    var p := (if IsMeta(c) then ['\\', c] else [c]) + rest;
    assert IsMeta(c) ==> p[2..] == rest;
    assert !IsMeta(c) ==> p[1..] == rest;
  }

  lemma PatternIsWellFormed(query: string)
    ensures !EndsInLoneEscape(SearchPattern(query))
  {
    ThreeReplacesAreOnePass(query);
    EscapedIsWellFormed(query, "%");
    assert "%"[1..] == "";
    assert SearchPattern(query)[1..] == EscapeEach(query) + "%";
  }
}
