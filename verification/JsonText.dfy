/** UTF-16 text, as JavaScript strings hold it. */
module JsonText {

  type CodeUnit = c: int | 0 <= c < 0x1_0000

  type Text = seq<CodeUnit>

  const NULL: Text := ['n' as int, 'u' as int, 'l' as int, 'l' as int]
  const TRUE: Text := ['t' as int, 'r' as int, 'u' as int, 'e' as int]
  const FALSE: Text := ['f' as int, 'a' as int, 'l' as int, 's' as int, 'e' as int]

  const QUOTE: CodeUnit := '"' as int
  const BACKSLASH: CodeUnit := '\\' as int
  const COMMA: CodeUnit := ',' as int
  const COLON: CodeUnit := ':' as int
  const OPEN_BRACKET: CodeUnit := '[' as int
  const CLOSE_BRACKET: CodeUnit := ']' as int
  const OPEN_BRACE: CodeUnit := '{' as int
  const CLOSE_BRACE: CodeUnit := '}' as int
  const MINUS: CodeUnit := '-' as int
  const PLUS: CodeUnit := '+' as int
  const POINT: CodeUnit := '.' as int
  const SMALL_E: CodeUnit := 'e' as int
  const LARGE_E: CodeUnit := 'E' as int
  const ZERO: CodeUnit := '0' as int
  const NINE: CodeUnit := '9' as int
  const SPACE: CodeUnit := ' ' as int
  const NEWLINE: CodeUnit := '\n' as int
  const LETTER_U: CodeUnit := 'u' as int

  predicate IsSpace(c: CodeUnit) {
    c == 0x20 || c == 0x0A || c == 0x0D || c == 0x09
  }

  predicate IsBlank(t: Text) {
    forall c :: c in t ==> IsSpace(c)
  }

  predicate IsDigit(c: CodeUnit) {
    ZERO <= c <= NINE
  }

  predicate IsDigits(t: Text) {
    forall c :: c in t ==> IsDigit(c)
  }

  /** The text starts with c. */
  predicate Starts(t: Text, c: CodeUnit) {
    t != [] && t[0] == c
  }

  predicate StartsDigit(t: Text) {
    t != [] && IsDigit(t[0])
  }

  /** Code-unit order: compareKeys(a, b) < 0. */
  predicate Precedes(a: Text, b: Text) {
    if b == [] then false
    else if a == [] then true
    else if a[0] != b[0] then a[0] < b[0]
    else Precedes(a[1..], b[1..])
  }

  /** a is a prefix of b, or has the smaller code unit where they first differ. */
  ghost predicate Sooner(a: Text, b: Text) {
    exists k :: 0 <= k <= |a| && k < |b| && a[..k] == b[..k] && (k == |a| || a[k] < b[k])
  }

  lemma {:induction false} PrecedesIs(a: Text, b: Text)
    ensures Precedes(a, b) <==> Sooner(a, b)
  {
    if b != [] && a != [] && a[0] == b[0] {
      PrecedesIs(a[1..], b[1..]);
      if Precedes(a, b) {
        var k :| 0 <= k <= |a[1..]| && k < |b[1..]| && a[1..][..k] == b[1..][..k]
          && (k == |a[1..]| || a[1..][k] < b[1..][k]);
        assert a[..k + 1] == [a[0]] + a[1..][..k] && b[..k + 1] == [b[0]] + b[1..][..k];
      }
      if k :| 0 <= k <= |a| && k < |b| && a[..k] == b[..k] && (k == |a| || a[k] < b[k]) {
        assert k > 0;
        assert a[1..][..k - 1] == a[..k][1..] && b[1..][..k - 1] == b[..k][1..];
        assert k - 1 == |a[1..]| || a[1..][k - 1] < b[1..][k - 1];
      }
    } else if b != [] {
      assert a[..0] == b[..0];
      if k :| 0 <= k <= |a| && k < |b| && a[..k] == b[..k] && (k == |a| || a[k] < b[k]) {
        assert k > 0 ==> a[..k][0] == b[..k][0];
      }
    }
  }

  /** The order is total. */
  lemma {:induction false} PrecedesIsTotal(a: Text, b: Text)
    ensures a != b ==> Precedes(a, b) || Precedes(b, a)
    ensures !(Precedes(a, b) && Precedes(b, a))
  {
    if a != [] && b != [] && a[0] == b[0] {
      PrecedesIsTotal(a[1..], b[1..]);
      assert a == [a[0]] + a[1..] && b == [b[0]] + b[1..];
    }
  }

  lemma {:induction false} PrecedesIsTransitive(a: Text, b: Text, c: Text)
    requires !Precedes(c, b) && !Precedes(b, a)
    ensures !Precedes(c, a)
  {
    if a != [] && b != [] && c != [] && a[0] == b[0] == c[0] {
      PrecedesIsTransitive(a[1..], b[1..], c[1..]);
    }
  }
}
