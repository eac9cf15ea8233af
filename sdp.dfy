/**
 * `preferH264` from the streamer page (image_server/public/client.js): a
 * rewrite of an SDP offer that moves the H.264 payload type to the first
 * format position of the first video media line.
 *
 * An SDP description is a sequence of CRLF-terminated lines; a media line
 * `m=<media> <port> <proto> <fmt> ...` (section 5.14 of RFC 8866) lists the
 * payload types the sender accepts, and under section 5.1 of RFC 3264 the
 * first of them is the preferred one. The payload type of H.264 is taken from
 * an `a=rtpmap:<pt> H264/90000` attribute (section 6.6 of RFC 8866).
 */
module Sdp {
  import opened Wrappers
  import opened Strings

  const CRLF: string := "\r\n"

  /** `line.startsWith("m=video")`. */
  predicate IsVideoMLine(line: string) {
    StartsWith(line, "m=video")
  }

  /** `line.includes("H264/90000")`. */
  predicate IsH264Line(line: string) {
    Contains(line, "H264/90000")
  }

  /** `lines.findIndex(p)`, with None standing for -1. */
  function FindIndex(lines: seq<string>, p: string -> bool): (r: Option<nat>)
    ensures r.Some? ==> r.value < |lines| && p(lines[r.value])
    ensures r.Some? ==> forall j :: 0 <= j < r.value ==> !p(lines[j])
    ensures r.None? ==> forall j :: 0 <= j < |lines| ==> !p(lines[j])
  {
    if |lines| == 0 then None
    else if p(lines[0]) then Some(0)
    else match FindIndex(lines[1..], p)
      case None => None
      case Some(j) => Some(j + 1)
  }

  // ---------------------------------------------------------------------------
  // The regular expression /:(\d+) H264\/90000/

  predicate IsDigit(c: char) {
    '0' <= c <= '9'
  }

  predicate AllDigits(s: string) {
    forall i :: 0 <= i < |s| ==> IsDigit(s[i])
  }

  /** The length of the maximal run of digits in `s` from index `i`. */
  function DigitRun(s: string, i: nat): (n: nat)
    requires i <= |s|
    decreases |s| - i
    ensures i + n <= |s|
    ensures forall k :: i <= k < i + n ==> IsDigit(s[k])
    ensures i + n == |s| || !IsDigit(s[i + n])
  {
    if i < |s| && IsDigit(s[i]) then 1 + DigitRun(s, i + 1) else 0
  }

  /**
   * The regular expression matches at index `k`. Greedy `\d+` takes the
   * maximal run of digits; giving a digit back cannot help, since the
   * character after a shorter run is a digit and not the space the pattern
   * needs next, so this is the only way a match at `k` can go.
   */
  predicate MatchesAt(s: string, k: nat) {
    k < |s| && s[k] == ':' && DigitRun(s, k + 1) > 0
    && OccursAt(s, " H264/90000", k + 1 + DigitRun(s, k + 1))
  }

  /** The leftmost index at or after `from` where the expression matches. */
  function FirstMatchFrom(s: string, from: nat): (r: Option<nat>)
    requires from <= |s|
    decreases |s| - from
    ensures r.Some? ==> from <= r.value && MatchesAt(s, r.value)
    ensures r.Some? ==> forall k: nat :: from <= k < r.value ==> !MatchesAt(s, k)
    ensures r.None? ==> forall k: nat :: from <= k ==> !MatchesAt(s, k)
  {
    if from == |s| then None
    else if MatchesAt(s, from) then Some(from)
    else FirstMatchFrom(s, from + 1)
  }

  /** A match contains the literal `H264/90000` one character after the digits. */
  lemma MatchImpliesH264(s: string, k: nat)
    requires MatchesAt(s, k)
    ensures IsH264Line(s)
  {
    var j := k + 1 + DigitRun(s, k + 1);
    assert s[j + 1..j + 11] == s[j..j + 11][1..] == " H264/90000"[1..];
    assert OccursAt(s, "H264/90000", j + 1);
  }

  /**
   * `line.match(/:(\d+) H264\/90000/)[1]`: the digits captured by the leftmost
   * match, or None where `match` returns null.
   */
  function CapturedPayload(line: string): (r: Option<string>)
    ensures r.None? <==> forall k: nat :: !MatchesAt(line, k)
    ensures r.Some? ==> |r.value| > 0 && AllDigits(r.value) && IsH264Line(line)
  {
    match FirstMatchFrom(line, 0)
    case None => None
    case Some(k) =>
      MatchImpliesH264(line, k);
      Some(line[k + 1..k + 1 + DigitRun(line, k + 1)])
  }

  /** The capture is the digit run of the leftmost match, wherever that match is. */
  lemma CaptureIsLeftmost(line: string, k: nat)
    requires MatchesAt(line, k)
    requires forall j: nat :: j < k ==> !MatchesAt(line, j)
    ensures CapturedPayload(line) == Some(line[k + 1..k + 1 + DigitRun(line, k + 1)])
  {
    var first := FirstMatchFrom(line, 0);
    assert first.Some?;
    assert first.value == k by {
      assert !(first.value < k);
      assert !(k < first.value);
    }
  }

  /** A string of digits contains nothing that starts with a non-digit. */
  lemma DigitsAvoid(p: string, q: string)
    requires AllDigits(p) && |q| > 0 && !IsDigit(q[0])
    ensures !Contains(p, q)
  {
    forall k: nat | k <= |p|
      ensures !OccursAt(p, q, k)
    {
      if k + |q| <= |p| {
        assert p[k..k + |q|][0] == p[k];
      }
    }
  }

  // ---------------------------------------------------------------------------
  // Choosing the payload type

  /** The `TypeError` thrown when `match(...)` returns null and `[1]` is read from it. */
  datatype SdpError = MissingPayloadCapture(line: string)

  /**
   * `lines.filter(l => l.includes("H264/90000")).map(l => l.match(re)[1])`:
   * one capture per line that mentions H264/90000, in order, or the error
   * raised at the first such line the expression does not match.
   */
  function H264Payloads(lines: seq<string>): (r: Result<seq<string>, SdpError>)
    ensures r.Failure? <==>
      exists i :: 0 <= i < |lines| && IsH264Line(lines[i]) && CapturedPayload(lines[i]).None?
    ensures r.Success? ==>
      (r.value == [] <==> forall i :: 0 <= i < |lines| ==> !IsH264Line(lines[i]))
    ensures r.Success? && r.value != [] ==>
      FindIndex(lines, IsH264Line).Some?
      && CapturedPayload(lines[FindIndex(lines, IsH264Line).value]) == Some(r.value[0])
  {
    if |lines| == 0 then Success([])
    else
      var tail := H264Payloads(lines[1..]);
      ShiftedLines(lines);
      if !IsH264Line(lines[0]) then
        assert FindIndex(lines, IsH264Line) == (match FindIndex(lines[1..], IsH264Line)
          case None => None
          case Some(j) => Some(j + 1));
        tail
      else
        assert FindIndex(lines, IsH264Line) == Some(0);
        if CapturedPayload(lines[0]).None? then
          assert IsH264Line(lines[0]) && CapturedPayload(lines[0]).None?;
          Failure(MissingPayloadCapture(lines[0]))
        else if tail.Failure? then
          tail
        else
          var r := [CapturedPayload(lines[0]).value] + tail.value;
          assert r != [] && r[0] == CapturedPayload(lines[0]).value;
          Success(r)
  }

  /** The lines after the first are the tail's lines, one index further on. */
  lemma ShiftedLines(lines: seq<string>)
    requires |lines| > 0
    ensures forall i :: 1 <= i < |lines| ==> lines[i] == lines[1..][i - 1]
  {
  }

  // ---------------------------------------------------------------------------
  // Rewriting the media line

  /**
   * `sub` is `s` with some elements dropped and the others kept in their
   * order: each element of `sub` is matched, left to right, to a later
   * element of `s`.
   */
  predicate IsSubsequence(sub: seq<string>, s: seq<string>)
    decreases |s|
  {
    if |sub| == 0 then true
    else if |s| == 0 then false
    else if sub[0] == s[0] then IsSubsequence(sub[1..], s[1..])
    else IsSubsequence(sub, s[1..])
  }

  /**
   * `fields.filter(f => f !== p)`: every `p` is dropped, every other field is
   * kept as often as it occurs and in its original order.
   */
  function Without(fields: seq<string>, p: string): (r: seq<string>)
    ensures p !in r
    ensures multiset(r) == multiset(fields)[p := 0]
    ensures IsSubsequence(r, fields)
  {
    if |fields| == 0 then []
    else
      assert fields == [fields[0]] + fields[1..];
      var tail := Without(fields[1..], p);
      if fields[0] == p then
        assert |tail| == 0 || tail[0] != fields[0] by {
          if |tail| > 0 {
            assert tail[0] in tail;
          }
        }
        tail
      else
        assert ([fields[0]] + tail)[1..] == tail;
        [fields[0]] + tail
  }

  /** Filtering out a value that is not there changes nothing. */
  lemma {:induction false} WithoutAbsent(fields: seq<string>, p: string)
    requires p !in fields
    ensures Without(fields, p) == fields
  {
    if |fields| > 0 {
      WithoutAbsent(fields[1..], p);
      assert fields == [fields[0]] + fields[1..];
    }
  }

  /** How many leading fields `parts.slice(0, 3)` keeps: media, port and protocol. */
  function FixedFields(fields: seq<string>): nat {
    if |fields| < 3 then |fields| else 3
  }

  /**
   * `[...parts.slice(0, 3), p, ...parts.slice(3).filter(x => x !== p)]`: the
   * payload type `p` becomes the first format, every other format keeps its
   * place in order.
   */
  function Reorder(fields: seq<string>, p: string): (r: seq<string>)
    ensures |r| > FixedFields(fields)
    ensures r[..FixedFields(fields)] == fields[..FixedFields(fields)]
    ensures r[FixedFields(fields)] == p
    ensures r[FixedFields(fields) + 1..] == Without(fields[FixedFields(fields)..], p)
    ensures forall x :: x in r ==> x == p || x in fields
  {
    var h := FixedFields(fields);
    var rest := Without(fields[h..], p);
    var r := fields[..h] + [p] + rest;
    assert r[..h] == fields[..h];
    assert r[h + 1..] == rest;
    forall x | x in r
      ensures x == p || x in fields
    {
      if x in rest {
        assert multiset(rest)[x] > 0;
        assert x in multiset(fields[h..]);
      }
    }
    r
  }

  /** The fields `Reorder` builds, piece by piece. */
  lemma ReorderPieces(fields: seq<string>, p: string)
    ensures var h, r := FixedFields(fields), Reorder(fields, p);
      && r == fields[..h] + ([p] + Without(fields[h..], p))
      && r[h..] == [p] + Without(fields[h..], p)
      && r[h + 1..] == Without(fields[h..], p)
  {
  }

  /**
   * Among the formats of the rewritten line `p` occurs exactly once, and the
   * other formats are the old ones without `p`.
   */
  lemma ReorderCounts(fields: seq<string>, p: string)
    ensures var h, r := FixedFields(fields), Reorder(fields, p);
      && multiset(r[h..])[p] == 1
      && multiset(r[h + 1..]) == multiset(fields[h..])[p := 0]
  {
    var h, r := FixedFields(fields), Reorder(fields, p);
    var rest := Without(fields[h..], p);
    ReorderPieces(fields, p);
    assert multiset(r[h..]) == multiset{p} + multiset(rest);
  }

  /**
   * The rewrite only permutes the fields when the old formats listed `p`
   * once, and adds `p` when they did not list it.
   */
  lemma ReorderPermutes(fields: seq<string>, p: string)
    ensures var h, r := FixedFields(fields), Reorder(fields, p);
      && (multiset(fields[h..])[p] == 1 ==> multiset(r) == multiset(fields))
      && (p !in fields[h..] ==> multiset(r) == multiset(fields) + multiset{p})
  {
    var h, r := FixedFields(fields), Reorder(fields, p);
    ReorderPieces(fields, p);
    var a, b, rest := fields[..h], fields[h..], Without(fields[h..], p);
    assert fields == a + b;
    MovedToFront(a, b, rest, p);
  }

  /** Multiset bookkeeping for `a + [p] + rest` against `a + b`. */
  lemma MovedToFront(a: seq<string>, b: seq<string>, rest: seq<string>, p: string)
    requires multiset(rest) == multiset(b)[p := 0]
    ensures multiset(b)[p] == 1 ==> multiset(a + ([p] + rest)) == multiset(a + b)
    ensures p !in b ==> multiset(a + ([p] + rest)) == multiset(a + b) + multiset{p}
  {
    assert multiset(a + ([p] + rest)) == multiset(a) + multiset{p} + multiset(rest);
    assert multiset(a + b) == multiset(a) + multiset(b);
    if multiset(b)[p] == 1 {
      RemoveSingle(multiset(b), p);
    }
    if p !in b {
      assert multiset(b)[p] == 0;
      RemoveAbsent(multiset(b), p);
    }
  }

  lemma RemoveSingle(m: multiset<string>, p: string)
    requires m[p] == 1
    ensures m[p := 0] + multiset{p} == m
  {
    assert forall x :: (m[p := 0] + multiset{p})[x] == m[x];
  }

  lemma RemoveAbsent(m: multiset<string>, p: string)
    requires m[p] == 0
    ensures m[p := 0] == m
  {
    assert forall x :: m[p := 0][x] == m[x];
  }

  /** Reordering a media line that already starts its formats with `p` changes nothing. */
  lemma ReorderIdempotent(fields: seq<string>, p: string)
    requires |fields| >= 3
    ensures Reorder(Reorder(fields, p), p) == Reorder(fields, p)
  {
    var r := Reorder(fields, p);
    var rest := Without(fields[3..], p);
    assert r == fields[..3] + [p] + rest;
    assert r[3..] == [p] + rest;
    assert ([p] + rest)[1..] == rest;
    WithoutAbsent(rest, p);
    assert Without(r[3..], p) == rest;
  }

  /** Reordering fields that lack `q` with a payload that lacks `q` yields fields that lack `q`. */
  lemma ReorderAvoids(fields: seq<string>, p: string, q: string)
    requires !Contains(p, q)
    requires forall i :: 0 <= i < |fields| ==> !Contains(fields[i], q)
    ensures forall i :: 0 <= i < |Reorder(fields, p)| ==> !Contains(Reorder(fields, p)[i], q)
  {
    var r := Reorder(fields, p);
    forall i | 0 <= i < |r|
      ensures !Contains(r[i], q)
    {
      assert r[i] in r;
      if r[i] != p {
        var j :| 0 <= j < |fields| && fields[j] == r[i];
      }
    }
  }

  /** A one-character separator never overlaps itself. */
  lemma SpaceUnbordered()
    ensures Unbordered(" ")
  {
  }

  /**
   * `parts.join(" ")` on the reordered fields of the m-line. When the payload
   * has no space in it, splitting the new line by spaces gives back exactly
   * the reordered fields.
   */
  function RewriteMLine(line: string, p: string): (r: string)
    ensures !Contains(p, " ") ==> Split(r, " ") == Reorder(Split(line, " "), p)
  {
    var fields := Split(line, " ");
    var r := Join(Reorder(fields, p), " ");
    RejoinedFields(fields, p);
    r
  }

  /** Splitting the joined reordered fields gives them back. */
  lemma RejoinedFields(fields: seq<string>, p: string)
    requires forall i :: 0 <= i < |fields| ==> !Contains(fields[i], " ")
    ensures !Contains(p, " ") ==> Split(Join(Reorder(fields, p), " "), " ") == Reorder(fields, p)
  {
    if !Contains(p, " ") {
      ReorderAvoids(fields, p, " ");
      SpaceUnbordered();
      SplitJoin(Reorder(fields, p), " ");
    }
  }

  /** `preferH264(sdp)`; a Failure is the exception it throws. */
  function PreferH264(sdp: string): (r: Result<string, SdpError>)
    ensures FindIndex(Split(sdp, CRLF), IsVideoMLine).None? ==> r == Success(sdp)
    ensures r.Failure? <==>
      && FindIndex(Split(sdp, CRLF), IsVideoMLine).Some?
      && exists i :: 0 <= i < |Split(sdp, CRLF)| && IsH264Line(Split(sdp, CRLF)[i])
                     && CapturedPayload(Split(sdp, CRLF)[i]).None?
    ensures (forall i :: 0 <= i < |Split(sdp, CRLF)| ==> !IsH264Line(Split(sdp, CRLF)[i])) ==>
      r == Success(sdp)
  {
    var lines := Split(sdp, CRLF);
    match FindIndex(lines, IsVideoMLine)
    case None => Success(sdp)
    case Some(m) =>
      match H264Payloads(lines)
      case Failure(e) => Failure(e)
      case Success(payloads) =>
        if payloads == [] then Success(sdp)
        else Success(Join(lines[m := RewriteMLine(lines[m], payloads[0])], CRLF))
  }

  // ---------------------------------------------------------------------------
  // Properties of the rewrite

  lemma CrlfUnbordered()
    ensures Unbordered(CRLF)
  {
    assert CRLF[1..][0] != CRLF[..1][0];
  }

  /**
   * The rewritten m-line splits back into the reordered fields, and the
   * rewritten description splits back into its lines.
   */
  lemma RewrittenLines(lines: seq<string>, m: nat, p: string)
    requires m < |lines| && |p| > 0 && AllDigits(p)
    requires forall i :: 0 <= i < |lines| ==> !Contains(lines[i], CRLF)
    ensures Split(RewriteMLine(lines[m], p), " ") == Reorder(Split(lines[m], " "), p)
    ensures Split(Join(lines[m := RewriteMLine(lines[m], p)], CRLF), CRLF)
            == lines[m := RewriteMLine(lines[m], p)]
  {
    var fields := Split(lines[m], " ");
    var r := Reorder(fields, p);
    DigitsAvoid(p, " ");
    DigitsAvoid(p, CRLF);
    SplitAvoids(lines[m], " ", CRLF);
    ReorderAvoids(fields, p, CRLF);
    JoinAvoids(r, ' ', CRLF);
    CrlfUnbordered();
    SplitJoin(lines[m := RewriteMLine(lines[m], p)], CRLF);
  }

  /**
   * The rewrite keeps the number of lines and every line but the first
   * `m=video` line; that line's fields become the reordered fields with the
   * capture of the first line mentioning H264/90000 as the first format.
   */
  lemma PreferH264Lines(sdp: string)
    requires PreferH264(sdp).Success?
    ensures var before, after := Split(sdp, CRLF), Split(PreferH264(sdp).value, CRLF);
      && |after| == |before|
      && (forall i :: 0 <= i < |before| && FindIndex(before, IsVideoMLine) != Some(i) ==>
            after[i] == before[i])
    ensures var before, after := Split(sdp, CRLF), Split(PreferH264(sdp).value, CRLF);
      var m, j := FindIndex(before, IsVideoMLine), FindIndex(before, IsH264Line);
      m.Some? && j.Some? ==>
        && CapturedPayload(before[j.value]).Some?
        && var fields, p := Split(before[m.value], " "), CapturedPayload(before[j.value]).value;
           && Split(after[m.value], " ") == Reorder(fields, p)
           && multiset(Split(after[m.value], " ")[FixedFields(fields)..])[p] == 1
  {
    var lines := Split(sdp, CRLF);
    match FindIndex(lines, IsVideoMLine)
    case None =>
    case Some(m) =>
      match H264Payloads(lines)
      case Success(payloads) =>
        if payloads != [] {
          RewrittenLines(lines, m, payloads[0]);
          ReorderCounts(Split(lines[m], " "), payloads[0]);
        }
  }

  /** `a` starts with `c` when it starts with `b` and `b` starts with `c`. */
  lemma StartsWithTransitive(a: string, b: string, c: string)
    requires StartsWith(a, b) && StartsWith(b, c)
    ensures StartsWith(a, c)
  {
    assert a[..|c|] == a[..|b|][..|c|];
  }

  /** The rewritten line is still a video media line and never mentions H264/90000. */
  lemma RewriteKeepsLineKind(line: string, p: string)
    requires IsVideoMLine(line) && !IsH264Line(line) && |p| > 0 && AllDigits(p)
    ensures IsVideoMLine(RewriteMLine(line, p)) && !IsH264Line(RewriteMLine(line, p))
  {
    var fields := Split(line, " ");
    var r := Reorder(fields, p);
    assert r[0] == r[..FixedFields(fields)][0] == fields[0];
    SplitHeadKeepsPrefix(line, ' ', "m=video");
    JoinStartsWithHead(r, " ");
    StartsWithTransitive(RewriteMLine(line, p), r[0], "m=video");
    SplitAvoids(line, " ", "H264/90000");
    DigitsAvoid(p, "H264/90000");
    ReorderAvoids(fields, p, "H264/90000");
    JoinAvoids(r, ' ', "H264/90000");
  }

  /** Replacing the first line that satisfies `p` by another such line keeps it first. */
  lemma FindIndexAfterUpdate(lines: seq<string>, p: string -> bool, m: nat, v: string)
    requires FindIndex(lines, p) == Some(m) && p(v)
    ensures FindIndex(lines[m := v], p) == Some(m)
  {
    var lines' := lines[m := v];
    forall j | 0 <= j < m
      ensures !p(lines'[j])
    {
      assert lines'[j] == lines[j];
    }
    assert p(lines'[m]);
  }

  /** Lines that do not mention H264/90000 play no part in choosing the payload. */
  lemma {:induction false} PayloadsIgnoreLine(lines: seq<string>, m: nat, v: string)
    requires m < |lines| && !IsH264Line(lines[m]) && !IsH264Line(v)
    ensures H264Payloads(lines[m := v]) == H264Payloads(lines)
    decreases m
  {
    var lines' := lines[m := v];
    if m == 0 {
      assert lines'[1..] == lines[1..];
    } else {
      assert lines'[1..] == lines[1..][m - 1 := v];
      PayloadsIgnoreLine(lines[1..], m - 1, v);
      assert lines'[0] == lines[0];
    }
  }

  /**
   * The condition under which the rewrite is idempotent: the first video
   * m-line has media, port and protocol fields and does not itself mention
   * H264/90000.
   */
  predicate RewritableMLine(sdp: string) {
    var lines := Split(sdp, CRLF);
    match FindIndex(lines, IsVideoMLine)
    case None => true
    case Some(m) => |Split(lines[m], " ")| >= 3 && !IsH264Line(lines[m])
  }

  /** Rewriting an already rewritten description changes nothing. */
  lemma PreferH264Idempotent(sdp: string)
    requires PreferH264(sdp).Success? && RewritableMLine(sdp)
    ensures PreferH264(PreferH264(sdp).value) == PreferH264(sdp)
  {
    var lines := Split(sdp, CRLF);
    match FindIndex(lines, IsVideoMLine)
    case None =>
    case Some(m) =>
      match H264Payloads(lines)
      case Success(payloads) =>
        if payloads != [] {
          var p := payloads[0];
          var fields := Split(lines[m], " ");
          var line' := RewriteMLine(lines[m], p);
          var lines' := lines[m := line'];
          var out := Join(lines', CRLF);
          assert PreferH264(sdp) == Success(out);
          RewrittenLines(lines, m, p);
          RewriteKeepsLineKind(lines[m], p);
          FindIndexAfterUpdate(lines, IsVideoMLine, m, line');
          PayloadsIgnoreLine(lines, m, line');
          ReorderIdempotent(fields, p);
          assert RewriteMLine(line', p) == line';
          SecondPass(out, lines', m, payloads);
        }
  }

  /** Running the rewrite on a description whose m-line is already in its rewritten form. */
  lemma SecondPass(out: string, lines: seq<string>, m: nat, payloads: seq<string>)
    requires Split(out, CRLF) == lines && Join(lines, CRLF) == out
    requires FindIndex(lines, IsVideoMLine) == Some(m)
    requires H264Payloads(lines) == Success(payloads) && payloads != []
    requires RewriteMLine(lines[m], payloads[0]) == lines[m]
    ensures PreferH264(out) == Success(out)
  {
    assert lines[m := lines[m]] == lines;
  }
}
