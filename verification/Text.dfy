/** Text: runes, trimming, and the normal form that query normalization computes. */
module Text {

  /** `unicode.IsSpace`: the White_Space property. */
  predicate IsSpace(r: char) {
    var c := r as int;
    || 0x09 <= c <= 0x0D || c == 0x20 || c == 0x85 || c == 0xA0 || c == 0x1680
    || 0x2000 <= c <= 0x200A || c == 0x2028 || c == 0x2029 || c == 0x202F || c == 0x205F || c == 0x3000
  }

  /** `unicode.IsControl`: category Cc. */
  predicate IsControl(r: char) {
    var c := r as int;
    c <= 0x1F || 0x7F <= c <= 0x9F
  }

  /** The White_Space property of the Unicode Character Database, rune by rune. */
  lemma {:induction false} SpaceRunes(r: char)
    ensures IsSpace(r) <==>
            r as int in {0x0009, 0x000A, 0x000B, 0x000C, 0x000D, 0x0020, 0x0085, 0x00A0, 0x1680,
                         0x2000, 0x2001, 0x2002, 0x2003, 0x2004, 0x2005, 0x2006, 0x2007, 0x2008, 0x2009, 0x200A,
                         0x2028, 0x2029, 0x202F, 0x205F, 0x3000}
  {
  }

  /** Category Cc: the C0 controls, the delete character and the C1 controls, 65 runes. */
  lemma {:induction false} ControlRunes(r: char)
    ensures IsControl(r) <==> r < ' ' || r == '\U{7F}' || '\U{80}' <= r < '\U{A0}'
  {
  }

  predicate IsVisible(r: char) {
    !IsSpace(r) && !IsControl(r)
  }

  /** What is assumed of `unicode.ToLower`: idempotent, and visible runes stay visible. */
  ghost predicate LawfulLower(lower: char -> char) {
    && (forall r :: lower(lower(r)) == lower(r))
    && (forall r :: IsVisible(r) ==> IsVisible(lower(r)))
  }

  function Same(r: char): char {
    r
  }

  type Lower = f: char -> char | LawfulLower(f) witness Same

  function Front<T>(s: seq<T>): seq<T>
    requires s != []
  {
    s[..|s| - 1]
  }

  function Last<T>(s: seq<T>): T
    requires s != []
  {
    s[|s| - 1]
  }

  function TrimLeft(s: string): string {
    if s != "" && IsSpace(s[0]) then TrimLeft(s[1..]) else s
  }

  function TrimRight(s: string): string {
    if s != "" && IsSpace(Last(s)) then TrimRight(Front(s)) else s
  }

  /** `strings.TrimSpace`. */
  function TrimSpace(s: string): string {
    TrimRight(TrimLeft(s))
  }

  // ---------- The normal form: split at spaces, clean, drop empties, join ----------

  /** The pieces between space runes, empty ones included. */
  function Split(q: string): (ps: seq<string>)
    ensures ps != []
  {
    if q == "" then [""]
    else
      var ps, r := Split(Front(q)), Last(q);
      if IsSpace(r) then ps + [""] else Front(ps) + [Last(ps) + [r]]
  }

  /** Without control runes, in lower case. */
  function Clean(lower: Lower, piece: string): string {
    if piece == "" then ""
    else Clean(lower, Front(piece)) + if IsControl(Last(piece)) then "" else [lower(Last(piece))]
  }

  function CleanAll(lower: Lower, pieces: seq<string>): seq<string> {
    if pieces == [] then []
    else
      var word := Clean(lower, Last(pieces));
      CleanAll(lower, Front(pieces)) + if word == "" then [] else [word]
  }

  function Join(words: seq<string>): string {
    if words == [] then ""
    else if |words| == 1 then words[0]
    else Join(Front(words)) + " " + Last(words)
  }

  function Words(lower: Lower, q: string): seq<string> {
    CleanAll(lower, Split(q))
  }

  function Canon(lower: Lower, q: string): string {
    Join(Words(lower, q))
  }

  /** The words before the last space rune, and the word after it. */
  function Closed(lower: Lower, q: string): seq<string> {
    CleanAll(lower, Front(Split(q)))
  }

  function Current(lower: Lower, q: string): string {
    Clean(lower, Last(Split(q)))
  }

  /** Is a word still open at the end of the text? */
  predicate Open(lower: Lower, q: string) {
    Current(lower, q) != ""
  }

  lemma {:induction false} ScanStep(lower: Lower, q: string, r: char)
    ensures var q' := q + [r];
            if IsSpace(r) then Closed(lower, q') == Words(lower, q) && Current(lower, q') == ""
            else
              && Closed(lower, q') == Closed(lower, q)
              && Current(lower, q') == Current(lower, q) + if IsControl(r) then "" else [lower(r)]
  {
    var ps := Split(q);
    assert Front(q + [r]) == q && Last(q + [r]) == r;
    if IsSpace(r) {
      assert Split(q + [r]) == ps + [""];
      assert Front(ps + [""]) == ps && Last(ps + [""]) == "";
    } else {
      var piece := Last(ps) + [r];
      assert Front(piece) == Last(ps) && Last(piece) == r;
      assert Split(q + [r]) == Front(ps) + [piece];
      assert Front(Front(ps) + [piece]) == Front(ps) && Last(Front(ps) + [piece]) == piece;
    }
  }

  lemma {:induction false} WordsAreClosedAndCurrent(lower: Lower, q: string)
    ensures !Open(lower, q) ==> Words(lower, q) == Closed(lower, q)
    ensures Open(lower, q) ==>
              && Words(lower, q) == Closed(lower, q) + [Current(lower, q)]
              && Front(Words(lower, q)) == Closed(lower, q) && Last(Words(lower, q)) == Current(lower, q)
  {
  }

  lemma {:induction false} WordsStepVisible(lower: Lower, q: string, r: char)
    requires IsVisible(r)
    ensures Open(lower, q + [r])
    ensures Open(lower, q) ==>
              && Words(lower, q) != []
              && Words(lower, q + [r]) == Front(Words(lower, q)) + [Last(Words(lower, q)) + [lower(r)]]
    ensures !Open(lower, q) ==> Words(lower, q + [r]) == Words(lower, q) + [[lower(r)]]
  {
    ScanStep(lower, q, r);
    WordsAreClosedAndCurrent(lower, q);
    WordsAreClosedAndCurrent(lower, q + [r]);
    assert !Open(lower, q) ==> Current(lower, q) + [lower(r)] == [lower(r)];
  }

  lemma {:induction false} WordsStepInvisible(lower: Lower, q: string, r: char)
    requires !IsVisible(r)
    ensures Words(lower, q + [r]) == Words(lower, q)
    ensures Open(lower, q + [r]) <==> Open(lower, q) && !IsSpace(r)
  {
    ScanStep(lower, q, r);
    WordsAreClosedAndCurrent(lower, q);
    WordsAreClosedAndCurrent(lower, q + [r]);
    assert !IsSpace(r) ==> Current(lower, q) + "" == Current(lower, q);
  }

  /** How one more rune changes the words. */
  lemma {:induction false} WordsStep(lower: Lower, q: string, r: char)
    ensures Open(lower, q) ==> Words(lower, q) != []
    ensures !IsVisible(r) ==>
              && Words(lower, q + [r]) == Words(lower, q)
              && (Open(lower, q + [r]) <==> Open(lower, q) && !IsSpace(r))
    ensures IsVisible(r) ==>
              && Open(lower, q + [r])
              && Words(lower, q + [r])
                 == if Open(lower, q) then Front(Words(lower, q)) + [Last(Words(lower, q)) + [lower(r)]]
                    else Words(lower, q) + [[lower(r)]]
  {
    WordsAreClosedAndCurrent(lower, q);
    if IsVisible(r) {
      WordsStepVisible(lower, q, r);
    } else {
      WordsStepInvisible(lower, q, r);
    }
  }

  /** Words are non-empty and visible. */
  predicate IsWord(w: string) {
    w != "" && forall i :: 0 <= i < |w| ==> IsVisible(w[i])
  }

  predicate IsNormalWord(lower: Lower, w: string) {
    IsWord(w) && forall i :: 0 <= i < |w| ==> lower(w[i]) == w[i]
  }

  predicate AreNormalWords(lower: Lower, ws: seq<string>) {
    forall i :: 0 <= i < |ws| ==> IsNormalWord(lower, ws[i])
  }

  lemma {:induction false} WordsAreNormal(lower: Lower, q: string)
    ensures AreNormalWords(lower, Words(lower, q))
  {
    if q == "" {
    } else {
      var p, r := Front(q), Last(q);
      WordsAreNormal(lower, p);
      assert q == p + [r];
      WordsStep(lower, p, r);
      if IsVisible(r) {
        LetterKeepsNormal(lower, Words(lower, p), r);
      }
    }
  }

  lemma {:induction false} LetterKeepsNormal(lower: Lower, ws: seq<string>, r: char)
    requires AreNormalWords(lower, ws) && IsVisible(r)
    ensures AreNormalWords(lower, ws + [[lower(r)]])
    ensures ws != [] ==> AreNormalWords(lower, Front(ws) + [Last(ws) + [lower(r)]])
  {
  }

  // ---------- Trimming does not change the words ----------

  lemma {:induction false} LeadingSpace(lower: Lower, r: char, q: string)
    requires IsSpace(r)
    ensures Words(lower, [r] + q) == Words(lower, q) && Open(lower, [r] + q) == Open(lower, q)
  {
    if q == "" {
      WordsStep(lower, "", r);
      assert [r] + "" == "" + [r];
    } else {
      LeadingSpace(lower, r, Front(q));
      assert [r] + q == [r] + Front(q) + [Last(q)] && q == Front(q) + [Last(q)];
      WordsStep(lower, [r] + Front(q), Last(q));
      WordsStep(lower, Front(q), Last(q));
    }
  }

  lemma {:induction false} TrimLeftKeepsWords(lower: Lower, q: string)
    ensures Words(lower, TrimLeft(q)) == Words(lower, q)
    decreases |q|
  {
    if q == "" || !IsSpace(q[0]) {
    } else {
      TrimLeftKeepsWords(lower, q[1..]);
      LeadingSpace(lower, q[0], q[1..]);
      assert q == [q[0]] + q[1..];
    }
  }

  lemma {:induction false} TrimRightKeepsWords(lower: Lower, q: string)
    ensures Words(lower, TrimRight(q)) == Words(lower, q)
    decreases |q|
  {
    if q == "" || !IsSpace(Last(q)) {
    } else {
      TrimRightKeepsWords(lower, Front(q));
      WordsStep(lower, Front(q), Last(q));
      assert q == Front(q) + [Last(q)];
    }
  }

  lemma {:induction false} TrimKeepsWords(lower: Lower, q: string)
    ensures Words(lower, TrimSpace(q)) == Words(lower, q)
  {
    TrimLeftKeepsWords(lower, q);
    TrimRightKeepsWords(lower, TrimLeft(q));
  }

  // ---------- Joined words ----------

  lemma {:induction false} JoinEnds(lower: Lower, ws: seq<string>)
    requires AreNormalWords(lower, ws) && ws != []
    ensures var j := Join(ws); j != "" && !IsSpace(j[0]) && !IsSpace(Last(j))
  {
    assert IsNormalWord(lower, Last(ws));
    if |ws| <= 1 {
    } else {
      JoinEnds(lower, Front(ws));
    }
  }

  /** The normal form is empty exactly when no word remains. */
  lemma {:induction false} CanonEmptyIff(lower: Lower, q: string)
    ensures Canon(lower, q) == "" <==> Words(lower, q) == []
  {
    if Words(lower, q) != [] {
      WordsAreNormal(lower, q);
      JoinEnds(lower, Words(lower, q));
    }
  }

  lemma {:induction false} JoinExtend(ws: seq<string>, w: string, c: char)
    requires ws != [] && Last(ws) == w
    ensures Join(Front(ws) + [w + [c]]) == Join(ws) + [c]
  {
    var ws' := Front(ws) + [w + [c]];
    assert Front(ws') == Front(ws) && Last(ws') == w + [c];
    if |ws| > 1 {
      assert Join(Front(ws)) + " " + (w + [c]) == Join(Front(ws)) + " " + w + [c];
    }
  }

  lemma {:induction false} JoinAppend(ws: seq<string>, w: string)
    ensures Join(ws + [w]) == if ws == [] then w else Join(ws) + " " + w
  {
    assert Front(ws + [w]) == ws;
  }

  /** More text never shortens the normal form, so an early length check is final. */
  lemma {:induction false} CanonGrows(lower: Lower, q: string, k: nat)
    requires k <= |q|
    ensures |Canon(lower, q[..k])| <= |Canon(lower, q)|
    decreases |q| - k
  {
    if k == |q| {
      assert q[..k] == q;
    } else {
      CanonGrows(lower, q, k + 1);
      assert q[..k + 1] == q[..k] + [q[k]];
      CanonStep(lower, q[..k], q[k]);
    }
  }

  /** How one more rune changes the normal form. */
  lemma {:induction false} CanonStep(lower: Lower, q: string, r: char)
    ensures !IsVisible(r) ==> Canon(lower, q + [r]) == Canon(lower, q)
    ensures IsVisible(r) ==>
              Canon(lower, q + [r])
              == Canon(lower, q) + (if Open(lower, q) || Words(lower, q) == [] then "" else " ") + [lower(r)]
  {
    WordsStep(lower, q, r);
    var ws := Words(lower, q);
    if IsVisible(r) {
      if Open(lower, q) {
        JoinExtend(ws, Last(ws), lower(r));
        assert Join(ws) + "" == Join(ws);
      } else {
        JoinAppend(ws, [lower(r)]);
        assert ws == [] ==> Join(ws) + "" + [lower(r)] == [lower(r)];
      }
    }
  }

  lemma {:induction false} CanonOfRune(lower: Lower, r: char)
    requires IsVisible(r)
    ensures Canon(lower, [r]) == [lower(r)]
  {
    WordsAreClosedAndCurrent(lower, "");
    assert Words(lower, "") == [] && !Open(lower, "");
    WordsStepVisible(lower, "", r);
    assert "" + [r] == [r];
    assert Words(lower, [r]) == [[lower(r)]];
  }

  lemma {:induction false} CanonOfTwoRunes(lower: Lower, r: char, s: char)
    requires IsVisible(r) && IsVisible(s)
    ensures Canon(lower, [r, s]) == [lower(r), lower(s)]
  {
    CanonOfRune(lower, r);
    WordsStepVisible(lower, "", r);
    assert "" + [r] == [r] && [r] + [s] == [r, s];
    CanonStep(lower, [r], s);
  }

  // ---------- The normal form is a fixed point ----------

  /** Reading a normal word extends the open word by it. */
  lemma {:induction false} ReadWord(lower: Lower, q: string, w: string)
    requires forall i :: 0 <= i < |w| ==> IsVisible(w[i]) && lower(w[i]) == w[i]
    ensures Closed(lower, q + w) == Closed(lower, q) && Current(lower, q + w) == Current(lower, q) + w
  {
    if w == "" {
      assert q + w == q;
    } else {
      var v, c := Front(w), Last(w);
      assert w == v + [c] && q + w == q + v + [c];
      ReadWord(lower, q, v);
      ScanStep(lower, q + v, c);
      assert Current(lower, q) + v + [c] == Current(lower, q) + w;
    }
  }

  lemma {:induction false} ReadFirstWord(lower: Lower, q: string, w: string)
    requires IsNormalWord(lower, w) && !Open(lower, q)
    ensures Words(lower, q + w) == Words(lower, q) + [w]
  {
    ReadWord(lower, q, w);
    WordsAreClosedAndCurrent(lower, q);
    WordsAreClosedAndCurrent(lower, q + w);
    assert Current(lower, q) + w == w;
  }

  lemma {:induction false} ReadJoined(lower: Lower, ws: seq<string>)
    requires AreNormalWords(lower, ws)
    ensures Words(lower, Join(ws)) == ws
  {
    if ws == [] {
    } else if |ws| == 1 {
      ReadFirstWord(lower, "", ws[0]);
      assert "" + ws[0] == ws[0];
    } else {
      ReadJoined(lower, Front(ws));
      ReadNextWord(lower, Join(Front(ws)), Last(ws));
      assert Join(ws) == Join(Front(ws)) + " " + Last(ws);
    }
  }

  lemma {:induction false} ReadNextWord(lower: Lower, q: string, w: string)
    requires IsNormalWord(lower, w)
    ensures Words(lower, q + " " + w) == Words(lower, q) + [w]
  {
    assert q + " " == q + [' '];
    WordsStepInvisible(lower, q, ' ');
    ReadFirstWord(lower, q + " ", w);
  }

  /** Different words have different normal forms. */
  lemma {:induction false} JoinInjective(lower: Lower, q: string, p: string)
    ensures Canon(lower, q) == Canon(lower, p) <==> Words(lower, q) == Words(lower, p)
  {
    WordsAreNormal(lower, q);
    WordsAreNormal(lower, p);
    ReadJoined(lower, Words(lower, q));
    ReadJoined(lower, Words(lower, p));
  }

  /** Normalizing a normal form changes nothing. */
  lemma {:induction false} CanonIdempotent(lower: Lower, q: string)
    ensures Canon(lower, Canon(lower, q)) == Canon(lower, q)
  {
    WordsAreNormal(lower, q);
    ReadJoined(lower, Words(lower, q));
  }
}
