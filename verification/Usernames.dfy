/** utils/username.go. Case mapping is a parameter that fixes the characters a username may hold. */
module Usernames {
  import opened Text

  predicate NameChar(c: char) {
    'a' <= c <= 'z' || '0' <= c <= '9' || c == '_'
  }

  ghost predicate Lowering(lower: char -> char) {
    forall c :: NameChar(c) ==> lower(c) == c
  }

  function ToLower(s: string, lower: char -> char): (r: string)
    ensures |r| == |s| && forall i :: 0 <= i < |s| ==> r[i] == lower(s[i])
  {
    seq(|s|, i requires 0 <= i < |s| => lower(s[i]))
  }

  function NormalizeUsername(name: string, lower: char -> char): string {
    ToLower(TrimSpace(name), lower)
  }

  predicate Valid(name: string) {
    && name != "" && name[0] != '_' && name[|name| - 1] != '_'
    && forall i :: 0 <= i < |name| ==> NameChar(name[i])
  }

  method ValidUsername(name: string) returns (ok: bool)
    ensures ok <==> Valid(name)
  {
    if name == "" {
      return false;
    }
    if name[0] == '_' || name[|name| - 1] == '_' {
      return false;
    }
    var i := 0;
    while i < |name|
      invariant 0 <= i <= |name|
      invariant forall j :: 0 <= j < i ==> NameChar(name[j])
    {
      var ch := name[i];
      var isLowerASCII := ch >= 'a' && ch <= 'z';
      var isDigit := ch >= '0' && ch <= '9';
      if !(isLowerASCII || isDigit || ch == '_') {
        return false;
      }
      i := i + 1;
    }
    return true;
  }

  lemma ValidTrimmed(name: string)
    requires Valid(name)
    ensures TrimSpace(name) == name
  {
    TrimSpaceTrimmed(name);
  }

  /** A valid username is its own normal form, so the name stored by a registration is the name
      that the deletion worker later looks up. */
  lemma ValidIsNormal(name: string, lower: char -> char)
    requires Valid(name) && Lowering(lower)
    ensures NormalizeUsername(name, lower) == name
  {
    TrimSpaceTrimmed(name);
  }

  /** Letters that lower to `name`, with no space at the ends. */
  ghost predicate Lowers(lower: char -> char, x: string, name: string) {
    Trimmed(x) && |x| == |name| && forall i :: 0 <= i < |x| ==> lower(x[i]) == name[i]
  }

  /** `typed` is a way to write `name`: such letters, with any space around them. */
  ghost predicate Spells(lower: char -> char, typed: string, name: string) {
    exists a, x, b :: typed == a + x + b && Spaces(a) && Lowers(lower, x, name) && Spaces(b)
  }

  /** Normalisation gives the one name that was written. */
  lemma NormalizeIff(typed: string, lower: char -> char, name: string)
    ensures NormalizeUsername(typed, lower) == name <==> Spells(lower, typed, name)
  {
    TrimSpaceTrimmed(typed);
    var pre, post := TrimSplits(typed);
    if NormalizeUsername(typed, lower) == name {
      assert Lowers(lower, TrimSpace(typed), name);
    }
    if Spells(lower, typed, name) {
      var a, x, b :| typed == a + x + b && Spaces(a) && Lowers(lower, x, name) && Spaces(b);
      TrimPadded(a, x, b);
      assert NormalizeUsername(typed, lower) == name;
    }
  }

  /** The language of usernames, character by character. */
  lemma ValidIff(name: string)
    ensures Valid(name) <==>
      && name != "" && name[0] != '_' && name[|name| - 1] != '_'
      && forall i :: 0 <= i < |name| ==>
        name[i] == '_' || name[i] in "0123456789" || name[i] in "abcdefghijklmnopqrstuvwxyz"
  {
    forall i | 0 <= i < |name|
      ensures NameChar(name[i]) <==>
        name[i] == '_' || name[i] in "0123456789" || name[i] in "abcdefghijklmnopqrstuvwxyz"
    {
      LetterIff(name[i]);
    }
  }

  lemma LetterIff(c: char)
    ensures 'a' <= c <= 'z' <==> c in "abcdefghijklmnopqrstuvwxyz"
  {
    var all := "abcdefghijklmnopqrstuvwxyz";
    if 'a' <= c <= 'z' {
      assert all[c as int - 97] == c;
    }
  }
}
