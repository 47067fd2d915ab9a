/** Character-level string operations the mapper relies on: String.Split on one
    separator character, the header clean-up done with String.Replace, ASCII
    case folding for case-insensitive property lookup, and the white-space trim
    that .NET number and boolean parsing performs. */
module Text {

  /** Number of occurrences of `c` in `s`. */
  function Count(c: char, s: string): nat
  {
    if s == [] then 0 else (if s[0] == c then 1 else 0) + Count(c, s[1..])
  }

  /** `s.Split(sep)`: the pieces of `s` between occurrences of `sep`, empty
      pieces included, so there is always one more piece than separators. */
  function Split(s: string, sep: char): (cells: seq<string>)
    ensures |cells| == Count(sep, s) + 1
    ensures forall i :: 0 <= i < |cells| ==> sep !in cells[i]
    decreases |s|
  {
    if s == [] then [""]
    else
      var rest := Split(s[1..], sep);
      if s[0] == sep then [""] + rest
      else [[s[0]] + rest[0]] + rest[1..]
  }

  /** The inverse of Split: the cells glued back together with `sep`. */
  function Join(cells: seq<string>, sep: char): string
    requires cells != []
  {
    if |cells| == 1 then cells[0] else cells[0] + [sep] + Join(cells[1..], sep)
  }

  /** Splitting loses nothing: joining the cells gives back the line. */
  lemma {:induction false} JoinSplit(s: string, sep: char)
    ensures Join(Split(s, sep), sep) == s
    decreases |s|
  {
    if s != [] {
      var rest := Split(s[1..], sep);
      JoinSplit(s[1..], sep);
      if s[0] != sep {
        var cells := Split(s, sep);
        assert cells[0] == [s[0]] + rest[0] && cells[1..] == rest[1..];
        if |rest| == 1 {
          assert Join(cells, sep) == [s[0]] + rest[0];
        } else {
          assert Join(rest, sep) == rest[0] + [sep] + Join(rest[1..], sep);
          assert Join(cells, sep) == [s[0]] + rest[0] + [sep] + Join(rest[1..], sep);
        }
      }
    }
  }

  lemma {:induction false} SplitPrefix(c: string, t: string, sep: char)
    requires sep !in c
    ensures Split(c + [sep] + t, sep) == [c] + Split(t, sep)
    decreases |c|
  {
    if c == [] {
      assert c + [sep] + t == [sep] + t;
      assert ([sep] + t)[1..] == t;
    } else {
      SplitPrefix(c[1..], t, sep);
      assert (c + [sep] + t)[1..] == c[1..] + [sep] + t;
      assert [c[0]] + c[1..] == c;
    }
  }

  lemma {:induction false} SplitNoSeparator(c: string, sep: char)
    requires sep !in c
    ensures Split(c, sep) == [c]
    decreases |c|
  {
    if c != [] {
      SplitNoSeparator(c[1..], sep);
      assert [c[0]] + c[1..] == c;
    }
  }

  /** Cells that hold no separator come back unchanged from splitting their join. */
  lemma {:induction false} SplitJoin(cells: seq<string>, sep: char)
    requires cells != []
    requires forall i :: 0 <= i < |cells| ==> sep !in cells[i]
    ensures Split(Join(cells, sep), sep) == cells
  {
    if |cells| == 1 {
      SplitNoSeparator(cells[0], sep);
    } else {
      SplitJoin(cells[1..], sep);
      SplitPrefix(cells[0], Join(cells[1..], sep), sep);
      assert [cells[0]] + cells[1..] == cells;
    }
  }

  /** `s.Replace(c.ToString(), string.Empty)`: every occurrence of `c` removed. */
  function RemoveAll(c: char, s: string): (r: string)
    ensures |r| <= |s|
  {
    if s == [] then []
    else if s[0] == c then RemoveAll(c, s[1..])
    else [s[0]] + RemoveAll(c, s[1..])
  }

  /** RemoveAll leaves no `c`, adds no character, and keeps every other
      character as often as it occurred. */
  lemma {:induction false} RemoveAllSpec(c: char, s: string)
    ensures c !in RemoveAll(c, s)
    ensures forall d :: d !in s ==> d !in RemoveAll(c, s)
    ensures forall d :: d != c ==> Count(d, RemoveAll(c, s)) == Count(d, s)
    ensures |RemoveAll(c, s)| == |s| - Count(c, s)
  {
    if s != [] {
      RemoveAllSpec(c, s[1..]);
      assert forall d :: d in s[1..] ==> d in s;
    }
  }

  /** Removal works piece by piece, so the kept characters stay in order. */
  lemma {:induction false} RemoveAllConcat(c: char, a: string, b: string)
    ensures RemoveAll(c, a + b) == RemoveAll(c, a) + RemoveAll(c, b)
  {
    if a == [] {
      assert a + b == b;
    } else {
      assert (a + b)[0] == a[0];
      assert (a + b)[1..] == a[1..] + b;
      RemoveAllConcat(c, a[1..], b);
    }
  }

  /** The header-cell clean-up shared by every autoset: all spaces, then all
      double quotes, are removed; nothing else (no trim, no case change). */
  function StripSpacesAndQuotes(cell: string): (r: string)
    ensures ' ' !in r && '"' !in r
  {
    RemoveAllSpec(' ', cell);
    RemoveAllSpec('"', RemoveAll(' ', cell));
    RemoveAll('"', RemoveAll(' ', cell))
  }

  /** Every character other than a space or a double quote survives the
      clean-up as often as it occurred. */
  lemma StripKeepsOthers(cell: string)
    ensures forall d :: d != ' ' && d != '"' ==> Count(d, StripSpacesAndQuotes(cell)) == Count(d, cell)
  {
    RemoveAllSpec(' ', cell);
    RemoveAllSpec('"', RemoveAll(' ', cell));
  }

  /** The clean-up works piece by piece: the characters it keeps stay in
      their order, so "First Name" cleans to "FirstName". */
  lemma StripConcat(a: string, b: string)
    ensures StripSpacesAndQuotes(a + b) == StripSpacesAndQuotes(a) + StripSpacesAndQuotes(b)
  {
    RemoveAllConcat(' ', a, b);
    RemoveAllConcat('"', RemoveAll(' ', a), RemoveAll(' ', b));
  }

  /** One character other than a space or a double quote survives the
      clean-up; together with StripConcat this determines the result. */
  lemma StripKeepsChar(d: char)
    requires d != ' ' && d != '"'
    ensures StripSpacesAndQuotes([d]) == [d]
  {
    assert [d][1..] == [];
  }

  lemma {:induction false} RemoveAllAbsent(c: char, s: string)
    requires c !in s
    ensures RemoveAll(c, s) == s
  {
    if s != [] {
      RemoveAllAbsent(c, s[1..]);
      assert [s[0]] + s[1..] == s;
    }
  }

  /** A cell that is already clean is left unchanged, so the clean-up is idempotent. */
  lemma StripCleanCell(cell: string)
    requires ' ' !in cell && '"' !in cell
    ensures StripSpacesAndQuotes(cell) == cell
  {
    RemoveAllAbsent(' ', cell);
    RemoveAllAbsent('"', cell);
  }

  lemma StripIdempotent(cell: string)
    ensures StripSpacesAndQuotes(StripSpacesAndQuotes(cell)) == StripSpacesAndQuotes(cell)
  {
    StripCleanCell(StripSpacesAndQuotes(cell));
  }

  /** ASCII upper-case letters folded to lower case; every other character kept. */
  function LowerChar(c: char): char
  {
    if 'A' <= c <= 'Z' then (c as int + 32) as char else c
  }

  function Lower(s: string): (r: string)
    ensures |r| == |s|
    ensures forall i :: 0 <= i < |s| ==> r[i] == LowerChar(s[i])
  {
    if s == [] then [] else [LowerChar(s[0])] + Lower(s[1..])
  }

  /** Ordinal comparison ignoring ASCII case. */
  predicate EqualsIgnoreCase(a: string, b: string)
  {
    Lower(a) == Lower(b)
  }

  /** The white space .NET number parsing skips (NumberStyles.AllowLeadingWhite
      and AllowTrailingWhite): U+0009 to U+000D and U+0020. */
  predicate IsWhite(c: char)
  {
    c == ' ' || '\t' <= c <= '\r'
  }

  /** `char.IsWhiteSpace`: the white space above, U+0085, U+00A0 and the
      Unicode space, line and paragraph separators. */
  predicate IsWhiteSpace(c: char)
  {
    || IsWhite(c)
    || c == '\U{0085}' || c == '\U{00A0}' || c == '\U{1680}'
    || ('\U{2000}' <= c <= '\U{200A}')
    || c == '\U{2028}' || c == '\U{2029}' || c == '\U{202F}' || c == '\U{205F}' || c == '\U{3000}'
  }

  /** What `Boolean.Parse` trims: every `char.IsWhiteSpace` character and NUL. */
  predicate IsWhiteSpaceOrNull(c: char)
  {
    IsWhiteSpace(c) || c == '\0'
  }

  /** Leading characters satisfying `white` removed. */
  function TrimStart(s: string, white: char -> bool): string
  {
    if s != [] && white(s[0]) then TrimStart(s[1..], white) else s
  }

  /** Trailing characters satisfying `white` removed. */
  function TrimEnd(s: string, white: char -> bool): string
  {
    if s != [] && white(s[|s| - 1]) then TrimEnd(s[..|s| - 1], white) else s
  }

  /** `s.Trim()` restricted to the characters `white` selects. */
  function Trim(s: string, white: char -> bool): string
  {
    TrimEnd(TrimStart(s, white), white)
  }

  /** A string with no character `white` selects is its own trim. */
  lemma TrimNoWhite(s: string, white: char -> bool)
    requires forall i :: 0 <= i < |s| ==> !white(s[i])
    ensures Trim(s, white) == s
  {
  }

  lemma {:induction false} TrimStartAllWhite(s: string, white: char -> bool)
    requires forall i :: 0 <= i < |s| ==> white(s[i])
    ensures TrimStart(s, white) == []
  {
    if s != [] {
      TrimStartAllWhite(s[1..], white);
    }
  }

  /** A string made only of white space trims to nothing: .NET parsing sees no digits in it. */
  lemma TrimAllWhite(s: string, white: char -> bool)
    requires forall i :: 0 <= i < |s| ==> white(s[i])
    ensures Trim(s, white) == []
  {
    TrimStartAllWhite(s, white);
  }

  lemma {:induction false} TrimStartSkips(pre: string, rest: string, white: char -> bool)
    requires forall i :: 0 <= i < |pre| ==> white(pre[i])
    requires rest != [] && !white(rest[0])
    ensures TrimStart(pre + rest, white) == rest
  {
    if pre != [] {
      assert (pre + rest)[1..] == pre[1..] + rest;
      TrimStartSkips(pre[1..], rest, white);
    }
  }

  lemma {:induction false} TrimEndSkips(rest: string, post: string, white: char -> bool)
    requires forall i :: 0 <= i < |post| ==> white(post[i])
    requires rest != [] && !white(rest[|rest| - 1])
    ensures TrimEnd(rest + post, white) == rest
  {
    if post != [] {
      assert (rest + post)[..|rest + post| - 1] == rest + post[..|post| - 1];
      TrimEndSkips(rest, post[..|post| - 1], white);
    }
  }

  /** Trimming removes exactly white padding around a word that neither
      starts nor ends with white space. */
  lemma TrimPadded(pre: string, word: string, post: string, white: char -> bool)
    requires forall i :: 0 <= i < |pre| ==> white(pre[i])
    requires forall i :: 0 <= i < |post| ==> white(post[i])
    requires word != [] && !white(word[0]) && !white(word[|word| - 1])
    ensures Trim(pre + word + post, white) == word
  {
    assert pre + word + post == pre + (word + post);
    TrimStartSkips(pre, word + post, white);
    TrimEndSkips(word, post, white);
  }
}
