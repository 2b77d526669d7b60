/** The string operations of JavaScript that the modelled code relies on. */
module Text {

  /** String.prototype.split with a one-character separator. */
  function Split(s: string, sep: char): (parts: seq<string>)
    ensures parts != []
  {
    if s == "" then [""]
    else
      var rest := Split(s[1..], sep);
      if s[0] == sep then [""] + rest else [[s[0]] + rest[0]] + rest[1..]
  }

  function Join(parts: seq<string>, sep: char): string {
    if parts == [] then ""
    else if |parts| == 1 then parts[0]
    else parts[0] + [sep] + Join(parts[1..], sep)
  }

  /** Splitting loses nothing, and no part contains the separator. */
  lemma {:induction false} JoinOfSplit(s: string, sep: char)
    ensures Join(Split(s, sep), sep) == s
    ensures forall k :: 0 <= k < |Split(s, sep)| ==> sep !in Split(s, sep)[k]
  {
    if s != "" {
      JoinOfSplit(s[1..], sep);
      var rest := Split(s[1..], sep);
      assert Join(rest, sep) == s[1..];
      if s[0] != sep {
        var parts := [[s[0]] + rest[0]] + rest[1..];
        assert parts[1..] == rest[1..];
        assert Join(parts, sep) == [s[0]] + Join(rest, sep);
      } else {
        assert ([""] + rest)[1..] == rest;
      }
      assert s == [s[0]] + s[1..];
    }
  }

  /** Splitting at the separators that joining put in gives the parts back. */
  lemma {:induction false} SplitOfJoin(parts: seq<string>, sep: char)
    requires parts != [] && forall k :: 0 <= k < |parts| ==> sep !in parts[k]
    ensures Split(Join(parts, sep), sep) == parts
  {
    if |parts| == 1 {
      SplitOfPart(parts[0], sep);
    } else {
      SplitOfJoin(parts[1..], sep);
      SplitAfterPart(parts[0], Join(parts[1..], sep), sep);
      assert parts[0] + [sep] + Join(parts[1..], sep) == parts[0] + ([sep] + Join(parts[1..], sep));
    }
  }

  lemma {:induction false} SplitOfPart(s: string, sep: char)
    requires sep !in s
    ensures Split(s, sep) == [s]
  {
    if s != "" {
      SplitOfPart(s[1..], sep);
      assert s == [s[0]] + s[1..];
    }
  }

  lemma {:induction false} SplitAfterPart(s: string, rest: string, sep: char)
    requires sep !in s
    ensures Split(s + ([sep] + rest), sep) == [s] + Split(rest, sep)
  {
    var all := s + ([sep] + rest);
    if s == "" {
      assert all[1..] == rest;
    } else {
      SplitAfterPart(s[1..], rest, sep);
      assert all[1..] == s[1..] + ([sep] + rest) && s == [s[0]] + s[1..];
    }
  }

  /** A joined text has only characters of its parts, and separators. */
  lemma {:induction false} JoinedChars(parts: seq<string>, sep: char, i: nat)
    requires i < |Join(parts, sep)|
    ensures Join(parts, sep)[i] == sep || exists k :: 0 <= k < |parts| && Join(parts, sep)[i] in parts[k]
  {
    if |parts| == 1 {
      assert Join(parts, sep)[i] in parts[0];
    } else if i < |parts[0]| {
      assert Join(parts, sep)[i] == parts[0][i];
    } else if i > |parts[0]| {
      JoinedChars(parts[1..], sep, i - |parts[0]| - 1);
      assert forall k :: 0 <= k < |parts| - 1 ==> parts[1..][k] == parts[k + 1];
    }
  }

  /** The characters String.prototype.trim removes. */
  predicate IsSpace(c: char) {
    c in [' ', '\t', '\n', '\r', '\U{B}', '\U{C}', '\U{A0}', '\U{1680}', '\U{2028}', '\U{2029}', '\U{202F}',
          '\U{205F}', '\U{3000}', '\U{FEFF}']
    || '\U{2000}' <= c <= '\U{200A}'
  }

  /** String.prototype.trim. */
  function Trim(s: string): string {
    if s == "" then ""
    else if IsSpace(s[0]) then Trim(s[1..])
    else if IsSpace(s[|s| - 1]) then Trim(s[..|s| - 1])
    else s
  }

  /** SQLite's NOCASE folds the 26 ASCII letters and nothing else. */
  function FoldCase(s: string): string {
    seq(|s|, i requires 0 <= i < |s| => if 'A' <= s[i] <= 'Z' then s[i] - 'A' + 'a' else s[i])
  }
}
