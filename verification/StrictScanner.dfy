/** The scan of a table definition's tail for the STRICT keyword. */
module StrictScanner {
  import opened SqlText
  import opened Registry

  predicate IsBlank(c: char) { c == ' ' || c == '\t' || c == ',' || c == '\n' }

  /** Blanks, letters, digits and underscores: what the scan can get across. */
  predicate Crossable(c: char): (r: bool)
    ensures r <==>
              || c == ' ' || c == '\t' || c == '\n' || c == ',' || c == '_'
              || 'a' <= c <= 'z' || 'A' <= c <= 'Z' || '0' <= c <= '9'
  {
    IsBlank(c) || IsWordChar(c)
  }

  /** STRICT in any case at `i`, not followed by a letter or digit. */
  predicate StrictAt(s: string, i: nat) {
    i + 6 <= |s| && Upper(s[i..i + 6]) == "STRICT" && (i + 6 == |s| || !IsAlnum(s[i + 6]))
  }

  /** A word starts at `i`. */
  predicate WordStart(s: string, i: nat) {
    i < |s| && IsWordChar(s[i]) && (i == 0 || !IsWordChar(s[i - 1]))
  }

  ghost predicate HasStrict(s: string) {
    exists i: nat :: WordStart(s, i) && StrictAt(s, i)
  }

  function SkipBlanks(s: string, q: nat): (r: nat)
    requires q <= |s|
    ensures q <= r <= |s| && (forall i :: q <= i < r ==> IsBlank(s[i])) && (r < |s| ==> !IsBlank(s[r]))
    decreases |s| - q
  {
    if q < |s| && IsBlank(s[q]) then SkipBlanks(s, q + 1) else q
  }

  function SkipWord(s: string, q: nat): (r: nat)
    requires q <= |s|
    ensures q <= r <= |s| && (forall i :: q <= i < r ==> IsWordChar(s[i])) && (r < |s| ==> !IsWordChar(s[r]))
    decreases |s| - q
  {
    if q < |s| && IsWordChar(s[q]) then SkipWord(s, q + 1) else q
  }

  /** Where one round of the scan goes: an answer, or the position to go on from. */
  datatype Round = Found | Ended | GoOn(q: nat)

  function OneRound(s: string, q: nat): (r: Round)
    requires q < |s|
    ensures r.GoOn? ==> q <= r.q <= |s|
  {
    var p := SkipBlanks(s, q);
    if p + 6 > |s| then Ended
    else if StrictAt(s, p) then Found
    else GoOn(SkipWord(s, p))
  }

  /** A round that ends where it began will do so for ever. */
  predicate Stuck(s: string, q: nat) { q < |s| && OneRound(s, q) == GoOn(q) }

  /** The scan gets stuck exactly at a character it cannot cross with at least six characters left. */
  lemma {:induction false} StuckMeans(s: string, q: nat)
    requires q < |s|
    ensures Stuck(s, q) <==> !Crossable(s[q]) && q + 6 <= |s|
  {
    if !Crossable(s[q]) && q + 6 <= |s| {
      assert SkipBlanks(s, q) == q && SkipWord(s, q) == q;
      assert Upper(s[q..q + 6])[0] == UpperChar(s[q]);
    }
  }

  // ---- The whole scan --------------------------------------------------------------------

  /** Found, not found, or a loop that never ends. */
  datatype Verdict = Yes | No | Never

  function ScanFrom(s: string, q: nat): Verdict
    requires q <= |s|
    decreases |s| - q
  {
    if q == |s| then No
    else
      match OneRound(s, q)
      case Found => Yes
      case Ended => No
      case GoOn(next) => if next == q then Never else ScanFrom(s, next)
  }

  /** The loop, with a round that makes no progress reported instead of repeated. */
  method Scan(s: string) returns (v: Verdict)
    ensures v == ScanFrom(s, 0)
  {
    var q := 0;
    while q < |s|
      invariant q <= |s| && ScanFrom(s, q) == ScanFrom(s, 0)
    {
      var start := q;
      while q < |s| && IsBlank(s[q])
        invariant start <= q <= |s| && SkipBlanks(s, q) == SkipBlanks(s, start)
      {
        q := q + 1;
      }
      if q + 6 > |s| { return No; }
      if Upper(s[q..q + 6]) == "STRICT" && (q + 6 == |s| || !IsAlnum(s[q + 6])) { return Yes; }
      ghost var word := q;
      while q < |s| && IsWordChar(s[q])
        invariant word <= q <= |s| && SkipWord(s, q) == SkipWord(s, word)
      {
        q := q + 1;
      }
      if q == start { return Never; }
    }
    return No;
  }

  /** The first character at or after `q` that the scan cannot cross, or the end. */
  function Barrier(s: string, q: nat): (b: nat)
    requires q <= |s|
    ensures q <= b <= |s| && (forall i :: q <= i < b ==> Crossable(s[i])) && (b < |s| ==> !Crossable(s[b]))
    decreases |s| - q
  {
    if q < |s| && Crossable(s[q]) then Barrier(s, q + 1) else q
  }

  /** The scan stands between words: not inside one. */
  predicate Between(s: string, q: nat)
    requires q <= |s|
  {
    q == 0 || q == |s| || !(IsWordChar(s[q - 1]) && IsWordChar(s[q]))
  }

  ghost predicate StrictIn(s: string, lo: nat, hi: nat) {
    exists i: nat :: lo <= i < hi && WordStart(s, i) && StrictAt(s, i)
  }

  /** Where a round leads: past blanks and one word, which is no STRICT. */
  lemma {:induction false} RoundMeans(s: string, q: nat, b: nat)
    requires q < b <= |s| && Between(s, q) && (forall i :: q <= i < b ==> Crossable(s[i]))
    requires (b < |s| ==> !Crossable(s[b]))
    ensures match OneRound(s, q)
            case Found => StrictIn(s, q, b)
            case Ended => !StrictIn(s, q, b) && b + 6 > |s|
            case GoOn(next) => q < next <= b && Between(s, next) && !StrictIn(s, q, next)
  {
    var p := SkipBlanks(s, q);
    hide Upper;
    assert p <= b;
    forall i | q <= i < p ensures !WordStart(s, i) { assert IsBlank(s[i]); }
    if p + 6 <= |s| {
      if StrictAt(s, p) {
        StrictStarts(s, p);
        assert p < b && WordStart(s, p);
      } else {
        var r := SkipWord(s, p);
        assert r <= b;
        forall i | p < i < r ensures !WordStart(s, i) { assert IsWordChar(s[i - 1]); }
      }
    }
  }

  lemma {:induction false} StrictStarts(s: string, p: nat)
    requires StrictAt(s, p)
    ensures IsAlpha(s[p])
  {
    assert Upper(s[p..p + 6])[0] == UpperChar(s[p]);
  }

  lemma {:induction false} ScanMeansFrom(s: string, q: nat, b: nat)
    requires q <= b <= |s| && Between(s, q) && (forall i :: q <= i < b ==> Crossable(s[i]))
    requires (b < |s| ==> !Crossable(s[b]))
    ensures ScanFrom(s, q) == if StrictIn(s, q, b) then Yes else if b + 6 <= |s| then Never else No
    decreases |s| - q
  {
    hide StrictAt, WordStart, Crossable;
    if q < b {
      RoundMeans(s, q, b);
      var round := OneRound(s, q);
      hide OneRound;
      if round.GoOn? {
        ScanMeansFrom(s, round.q, b);
      }
    } else if q < |s| {
      StuckMeans(s, q);
      StuckOrEnded(s, q);
    }
  }

  lemma {:induction false} StuckOrEnded(s: string, q: nat)
    requires q < |s| && !Crossable(s[q])
    ensures OneRound(s, q) == if q + 6 <= |s| then GoOn(q) else Ended
  {
    StuckMeans(s, q);
  }

  /**
   * For every text: the scan answers yes exactly when a word STRICT starts before the first character it
   * cannot cross; otherwise it never ends exactly when at least six characters are left from there.
   */
  lemma {:induction false} ScanMeans(s: string)
    ensures ScanFrom(s, 0) == if StrictIn(s, 0, Barrier(s, 0)) then Yes else if Barrier(s, 0) + 6 <= |s| then Never
            else No
  {
    ScanMeansFrom(s, 0, Barrier(s, 0));
  }

  /** On tails of blanks and word characters it always ends, with the right answer. */
  lemma {:induction false} ScanClean(s: string)
    requires forall i :: 0 <= i < |s| ==>
               || s[i] == ' ' || s[i] == '\t' || s[i] == '\n' || s[i] == ',' || s[i] == '_'
               || 'a' <= s[i] <= 'z' || 'A' <= s[i] <= 'Z' || '0' <= s[i] <= '9'
    ensures ScanFrom(s, 0) == if HasStrict(s) then Yes else No
  {
    ScanMeans(s);
    hide StrictAt;
  }

  /** A comment behind the closing parenthesis, which the stored definition keeps, stops the scan for ever. */
  lemma {:induction false} ScanNeverEnds()
    ensures ScanFrom("/*x*/ STRICT", 0) == Never
  {
    StuckMeans("/*x*/ STRICT", 0);
  }
}
