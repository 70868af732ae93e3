/** The tests of <ctype.h> that the programs use, in the C locale. */
module Characters {
  predicate IsDigit(c: char) { '0' <= c <= '9' }

  predicate IsAlnum(c: char) { IsDigit(c) || 'A' <= c <= 'Z' || 'a' <= c <= 'z' }

  predicate IsSpace(c: char) { c == ' ' || '\t' <= c <= '\r' }

  /** The tests, character by character (section 7.4.1 of C11). */
  lemma CharactersAre(c: char)
    ensures IsDigit(c) <==> c in "0123456789"
    ensures IsAlnum(c) <==> c in "0123456789" || c in "ABCDEFGHIJKLMNOPQRSTUVWXYZ" || c in "abcdefghijklmnopqrstuvwxyz"
    ensures IsSpace(c) <==> c in " \t\n\U{0B}\U{0C}\r"
  {
    DigitsAre(c);
    UppersAre(c);
    LowersAre(c);
  }

  lemma DigitsAre(c: char)
    ensures IsDigit(c) <==> c in "0123456789"
  {
    var s := "0123456789";
    if IsDigit(c) {
      assert s[(c - '0') as int] == c;
    }
  }

  lemma UppersAre(c: char)
    ensures 'A' <= c <= 'Z' <==> c in "ABCDEFGHIJKLMNOPQRSTUVWXYZ"
  {
    var s := "ABCDEFGHIJKLMNOPQRSTUVWXYZ";
    if 'A' <= c <= 'Z' {
      assert s[(c - 'A') as int] == c;
    }
  }

  lemma LowersAre(c: char)
    ensures 'a' <= c <= 'z' <==> c in "abcdefghijklmnopqrstuvwxyz"
  {
    var s := "abcdefghijklmnopqrstuvwxyz";
    if 'a' <= c <= 'z' {
      assert s[(c - 'a') as int] == c;
    }
  }
}
