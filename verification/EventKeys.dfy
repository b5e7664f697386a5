/**
 The idempotency keys of event rows: the LIKE lookup for recorded rejections and the code read back from a row's key
 (backend/app/api/ws_scan.py).
 */
module EventKeys {
  import opened FrameBursts

  /** The width of the key column. */
  const WIDEST_KEY := 128

  /** SQL's LIKE: `%` stands for any text, `_` for any character, and a backslash takes the next one literally. */
  predicate Like(s: string, pattern: string)
    decreases |s| + |pattern|
  {
    if pattern == "" then s == ""
    else if pattern[0] == '%' then Like(s, pattern[1..]) || (s != "" && Like(s[1..], pattern))
    else if pattern[0] == '\\' && |pattern| > 1 then s != "" && s[0] == pattern[1] && Like(s[1..], pattern[2..])
    else s != "" && (pattern[0] == '_' || s[0] == pattern[0]) && Like(s[1..], pattern[1..])
  }

  predicate OccursAt(s: string, part: string, i: nat) {
    i + |part| <= |s| && s[i..i + |part|] == part
  }

  /** Python's `part in s`. */
  predicate Contains(s: string, part: string) {
    exists i | 0 <= i <= |s| :: OccursAt(s, part, i)
  }

  function Name(code: ErrorCode): string
    requires IsRecorded(code)
  {
    match code
    case Ambiguous => "ambiguous"
    case LowConfidence => "low_confidence"
    case UnknownFace => "unknown_face"
  }

  /** The key of the row that records a rejected burst. */
  function FailureKey(key: string, code: ErrorCode): string
    requires IsRecorded(code)
  {
    key + "-" + Name(code)
  }

  /** The code a recorded rejection is read back as: the first whose name occurs anywhere in the row's key. */
  function CodeOf(rowKey: string): ErrorCode {
    if Contains(rowKey, Name(Ambiguous)) then Ambiguous
    else if Contains(rowKey, Name(LowConfidence)) then LowConfidence
    else UnknownFace
  }

  predicate IsFailureOf(s: string, key: string) {
    exists code | IsRecorded(code) :: s == FailureKey(key, code)
  }

  predicate BelongsTo(s: string, key: string) {
    s == key || IsFailureOf(s, key)
  }

  // ---------------------------------------------------------------------------------------------
  // What the lookups find

  predicate Plain(s: string) {
    forall i | 0 <= i < |s| :: s[i] != '%' && s[i] != '_' && s[i] != '\\'
  }

  predicate StartsWith(s: string, p: string) {
    |p| <= |s| && s[..|p|] == p
  }

  lemma {:induction false} AnythingIsLikePercent(s: string)
    ensures Like(s, "%")
  {
    assert "%"[1..] == "";
    if s != "" {
      AnythingIsLikePercent(s[1..]);
    }
  }

  lemma {:induction false} LikeIsPrefix(s: string, p: string)
    requires Plain(p)
    ensures Like(s, p + "%") <==> StartsWith(s, p)
  {
    if p == "" {
      assert p + "%" == "%";
      AnythingIsLikePercent(s);
    } else {
      assert (p + "%")[1..] == p[1..] + "%";
      if s != "" {
        LikeIsPrefix(s[1..], p[1..]);
        assert StartsWith(s, p) <==> s[0] == p[0] && StartsWith(s[1..], p[1..]) by {
          if StartsWith(s, p) {
            assert s[1..][..|p| - 1] == s[..|p|][1..];
          }
          if s[0] == p[0] && StartsWith(s[1..], p[1..]) {
            assert s[..|p|] == [s[0]] + s[1..][..|p| - 1];
          }
        }
      }
    }
  }

  lemma LookupIsPrefix(s: string, key: string)
    requires Plain(key)
    ensures Like(s, key + "-%") <==> StartsWith(s, key + "-")
  {
    assert key + "-%" == (key + "-") + "%";
    LikeIsPrefix(s, key + "-");
  }

  lemma NamesDoNotNest(code: ErrorCode, other: ErrorCode, i: nat)
    requires IsRecorded(code) && IsRecorded(other) && OccursAt(Name(code), Name(other), i)
    ensures code == other
  {
    assert Name(code)[i] == Name(code)[i..i + |Name(other)|][0] == Name(other)[0];
  }

  predicate HasNoDash(s: string) {
    forall i | 0 <= i < |s| :: s[i] != '-'
  }

  lemma DashShowsInside(left: string, right: string, part: string, i: nat)
    ensures OccursAt(left + "-" + right, part, i) && i <= |left| < i + |part| ==> !HasNoDash(part)
  {
    var s := left + "-" + right;
    if OccursAt(s, part, i) && i <= |left| < i + |part| {
      assert s[|left|] == '-';
      assert part[|left| - i] == s[i..i + |part|][|left| - i];
    }
  }

  lemma DashIsNotStraddled(left: string, right: string, part: string, i: nat)
    requires HasNoDash(part) && part != [] && OccursAt(left + "-" + right, part, i)
    ensures OccursAt(left, part, i) || (i > |left| && OccursAt(right, part, i - |left| - 1))
  {
    var s := left + "-" + right;
    DashShowsInside(left, right, part, i);
    if i > |left| {
      assert right == s[|left| + 1..];
      assert right[i - |left| - 1..i - |left| - 1 + |part|] == s[i..i + |part|];
    } else {
      assert left[i..i + |part|] == s[i..i + |part|];
    }
  }

  lemma OccursBefore(left: string, right: string, part: string)
    requires Contains(left, part)
    ensures Contains(left + "-" + right, part)
  {
    var i :| 0 <= i <= |left| && OccursAt(left, part, i);
    assert (left + "-" + right)[i..i + |part|] == left[i..i + |part|];
    assert OccursAt(left + "-" + right, part, i);
  }

  /** The key of a failure row mentions its own code and what the burst's key mentions, and nothing else. */
  lemma FailureKeyMentions(key: string, code: ErrorCode, other: ErrorCode)
    requires IsRecorded(code) && IsRecorded(other)
    ensures Contains(FailureKey(key, code), Name(other)) <==> code == other || Contains(key, Name(other))
  {
    var s, part := FailureKey(key, code), Name(other);
    assert HasNoDash(part) && part != [];
    if code == other {
      OccursBehind(key, part);
    } else if Contains(key, part) {
      OccursBefore(key, Name(code), part);
    }
    forall i: nat | OccursAt(s, part, i)
      ensures code == other || Contains(key, part)
    {
      DashIsNotStraddled(key, Name(code), part, i);
      if i > |key| && OccursAt(Name(code), part, i - |key| - 1) {
        NamesDoNotNest(code, other, i - |key| - 1);
      }
    }
  }

  lemma OccursBehind(left: string, right: string)
    ensures Contains(left + "-" + right, right)
  {
    var s := left + "-" + right;
    assert s[|left| + 1..] == right;
    assert OccursAt(s, right, |left| + 1);
  }

  /** The names the reader tries before the code's own. */
  predicate MentionsAnEarlierCode(key: string, code: ErrorCode)
    requires IsRecorded(code)
  {
    (!code.Ambiguous? && Contains(key, Name(Ambiguous))) || (code.UnknownFace? && Contains(key, Name(LowConfidence)))
  }

  /** A recorded rejection is read back with its own code exactly if the burst's key names none tried before it. */
  lemma RecordedCodeIsReadBack(key: string, code: ErrorCode)
    requires IsRecorded(code)
    ensures CodeOf(FailureKey(key, code)) == code <==> !MentionsAnEarlierCode(key, code)
  {
    FailureKeyMentions(key, code, Ambiguous);
    FailureKeyMentions(key, code, LowConfidence);
  }

  // ---------------------------------------------------------------------------------------------
  // Keys of one length

  lemma FailureKeysTellKeysApart(key: string, other: string, code: ErrorCode, code': ErrorCode)
    requires IsRecorded(code) && IsRecorded(code') && |key| == |other|
    requires FailureKey(key, code) == FailureKey(other, code')
    ensures key == other && code == code'
  {
    assert key == FailureKey(key, code)[..|key|];
    assert other == FailureKey(other, code')[..|other|];
    assert Name(code) == FailureKey(key, code)[|key| + 1..];
    assert Name(code') == FailureKey(other, code')[|other| + 1..];
    assert Name(code)[0] == Name(code')[0];
  }

  lemma ForeignKeysDoNotBelong(key: string, other: string, code: ErrorCode)
    requires |key| == |other| && key != other && IsRecorded(code)
    ensures !BelongsTo(other, key) && !BelongsTo(FailureKey(other, code), key)
  {
    forall d | IsRecorded(d)
      ensures FailureKey(other, code) != FailureKey(key, d)
    {
      if FailureKey(other, code) == FailureKey(key, d) {
        FailureKeysTellKeysApart(key, other, d, code);
      }
    }
  }

  // ---------------------------------------------------------------------------------------------
  // Keys with wildcards

  /** The lookup for rejections finds every failure row that can be stored for this key. */
  predicate FindsItself(key: string) {
    forall code | IsRecorded(code) && |FailureKey(key, code)| <= WIDEST_KEY :: Like(FailureKey(key, code), key + "-%")
  }

  predicate HasNoBackslash(s: string) {
    forall i | 0 <= i < |s| :: s[i] != '\\'
  }

  /** Without a backslash a pattern matches its own text, wildcards or not. */
  lemma {:induction false} OwnTextIsLike(p: string, t: string)
    requires HasNoBackslash(p)
    ensures Like(p + t, p + "%")
  {
    if p == "" {
      assert p + "%" == "%" && p + t == t;
      AnythingIsLikePercent(t);
    } else {
      OwnTextIsLike(p[1..], t);
      assert (p + t)[1..] == p[1..] + t && (p + "%")[1..] == p[1..] + "%";
      if p[0] == '%' {
        assert Like((p + t)[1..], p + "%");
      }
    }
  }

  lemma NoBackslashFindsItself(key: string)
    requires HasNoBackslash(key)
    ensures FindsItself(key)
  {
    forall code | IsRecorded(code)
      ensures Like(FailureKey(key, code), key + "-%")
    {
      OwnTextIsLike(key + "-", Name(code));
      assert (key + "-") + "%" == key + "-%";
    }
  }

  /** A text the pattern matches: `x` for every wildcard, escapes taken literally. */
  function Sample(p: string, x: char): string {
    if p == "" then ""
    else if p[0] == '\\' && |p| > 1 then [p[1]] + Sample(p[2..], x)
    else [if p[0] == '%' || p[0] == '_' then x else p[0]] + Sample(p[1..], x)
  }

  predicate EndsInDash(p: string) {
    p != "" && p[|p| - 1] == '-'
  }

  /** One step of the match: a character taken by a wildcard, an escape or itself. */
  lemma LikeTakesOne(u: string, p: string, n: nat)
    requires u != "" && p != "" && n <= |p| && n == (if p[0] == '\\' then 2 else 1)
    requires p[0] == '%' || p[0] == '_' || u[0] == p[n - 1]
    requires Like(u[1..], p[n..] + "%")
    ensures Like(u, p + "%")
  {
    assert (p + "%")[n..] == p[n..] + "%";
    if p[0] == '%' {
      assert Like(u[1..], p + "%");
    }
  }

  lemma SampleStep(u: string, p: string, x: char, n: nat)
    requires p != "" && n <= |p| && n == (if p[0] == '\\' then 2 else 1) && StartsWith(u, Sample(p, x))
    ensures u != "" && StartsWith(u[1..], Sample(p[n..], x))
    ensures p[0] == '%' || p[0] == '_' || u[0] == p[n - 1]
  {
    var s := Sample(p, x);
    assert u[0] == s[0] && s[1..] == Sample(p[n..], x);
    assert u[1..][..|s| - 1] == u[..|s|][1..];
  }

  lemma {:induction false} SampleIsLike(p: string, x: char, u: string)
    requires p == "" || EndsInDash(p)
    requires StartsWith(u, Sample(p, x))
    ensures Like(u, p + "%")
  {
    if p == "" {
      assert p + "%" == "%";
      AnythingIsLikePercent(u);
    } else {
      var n := if p[0] == '\\' then 2 else 1;
      SampleStep(u, p, x, n);
      SampleIsLike(p[n..], x, u[1..]);
      LikeTakesOne(u, p, n);
    }
  }

  /** How many characters mean something to LIKE. */
  function Specials(s: string): nat {
    if s == "" then 0 else (if s[0] == '%' || s[0] == '_' || s[0] == '\\' then 1 else 0) + Specials(s[1..])
  }

  lemma {:induction false} SpecialsAdd(s: string, t: string)
    ensures Specials(s + t) == Specials(s) + Specials(t)
  {
    if s == "" {
      assert s + t == t;
    } else {
      SpecialsAdd(s[1..], t);
      assert (s + t)[1..] == s[1..] + t;
    }
  }

  lemma {:induction false} PlainHasNoSpecials(s: string)
    ensures Plain(s) <==> Specials(s) == 0
  {
    if s != "" {
      PlainHasNoSpecials(s[1..]);
      assert forall i | 1 <= i < |s| :: s[i] == s[1..][i - 1];
    }
  }

  /** A sample is no longer than its pattern and has fewer special characters, if the pattern has any. */
  lemma {:induction false} SampleIsSimpler(p: string)
    requires p == "" || EndsInDash(p)
    ensures |Sample(p, 'x')| <= |p|
    ensures p != "" ==> EndsInDash(Sample(p, 'x'))
    ensures Specials(Sample(p, 'x')) <= Specials(p)
    ensures Specials(p) > 0 ==> Specials(Sample(p, 'x')) < Specials(p)
  {
    if p != "" {
      var n := if p[0] == '\\' then 2 else 1;
      var s := Sample(p, 'x');
      SampleIsSimpler(p[n..]);
      assert s[1..] == Sample(p[n..], 'x');
      if n == 2 {
        assert Specials(p) == 1 + Specials(p[1..]) && p[1..][1..] == p[2..];
      }
    }
  }

  function Filler(n: nat): (r: string)
    ensures |r| == n && Specials(r) == 0
  {
    if n == 0 then "" else "x" + Filler(n - 1)
  }

  lemma FailureStartsWith(other: string, s: string, tail: string, code: ErrorCode)
    requires IsRecorded(code) && other + "-" == s + tail
    ensures StartsWith(FailureKey(other, code), s)
  {
    assert FailureKey(other, code) == s + (tail + Name(code));
  }

  lemma SampleOfKey(key: string) returns (s: string)
    requires !Plain(key)
    ensures s == Sample(key + "-", 'x') && |s| <= |key| + 1 && EndsInDash(s) && Specials(s) < Specials(key)
  {
    s := Sample(key + "-", 'x');
    SampleIsSimpler(key + "-");
    PlainHasNoSpecials(key);
    SpecialsAdd(key, "-");
  }

  /** The sample cut or filled up to the length of the key. */
  lemma SampleFitted(key: string, s: string) returns (other: string, tail: string)
    requires |s| <= |key| + 1 && EndsInDash(s) && Specials(s) < Specials(key)
    ensures |other| == |key| && other != key && other + "-" == s + tail
  {
    if |s| > |key| {
      other, tail := s[..|key|], "";
      assert s == other + "-" && s + "" == s;
      SpecialsAdd(other, "-");
    } else {
      var filler := Filler(|key| - |s|);
      other, tail := s + filler, filler + "-";
      SpecialsAdd(s, filler);
    }
  }

  /** Every key that is not plain has another of its length whose rejections its lookup finds. */
  lemma WildcardFindsAnother(key: string) returns (other: string)
    requires !Plain(key)
    ensures |other| == |key| && other != key
    ensures forall code | IsRecorded(code) :: Like(FailureKey(other, code), key + "-%")
  {
    var s := SampleOfKey(key);
    var tail;
    other, tail := SampleFitted(key, s);
    forall code | IsRecorded(code)
      ensures Like(FailureKey(other, code), key + "-%")
    {
      FailureStartsWith(other, s, tail, code);
      SampleIsLike(key + "-", 'x', FailureKey(other, code));
      assert (key + "-") + "%" == key + "-%";
    }
  }

  /** The lookup of a key finds no rejection of another key of its length exactly if the key is plain. */
  lemma PlainKeysFindOnlyThemselves(key: string)
    ensures Plain(key)
       <==> forall other, code | |other| == |key| && IsRecorded(code) && Like(FailureKey(other, code), key + "-%") ::
              other == key
  {
    if Plain(key) {
      forall other, code | |other| == |key| && IsRecorded(code) && Like(FailureKey(other, code), key + "-%")
        ensures other == key
      {
        LookupIsPrefix(FailureKey(other, code), key);
        assert other == FailureKey(other, code)[..|key|];
        assert key == (key + "-")[..|key|] == FailureKey(other, code)[..|key| + 1][..|key|];
      }
    } else {
      var other := WildcardFindsAnother(key);
      assert Like(FailureKey(other, UnknownFace), key + "-%");
    }
  }
}
