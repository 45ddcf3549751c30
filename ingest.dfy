/**
 * Ingestion of one transcript file (parser.go `parseFile`): the line
 * filters, the timestamp rule, synthetic request IDs and last-write-wins
 * deduplication into a map shared across files.
 *
 * JSON decoding and RFC 3339 parsing happen outside the model: each line
 * arrives with its decoding outcome, and each timestamp as an abstract
 * instant with the local calendar date it falls on.
 */
module Ingest {
  import opened Wrappers
  import opened Text
  import opened Pricing

  datatype Timestamp =
    | Missing                                    // "timestamp" absent or ""
    | Unparseable                                // present but not RFC 3339
    | Parsed(instant: int, localDate: string)    // instant, and its local YYYY-MM-DD

  /** The fields of a transcript line that the parser decodes. */
  datatype JsonRecord = JsonRecord(
    recordType: string,
    requestId: string,
    timestamp: Timestamp,
    model: string,
    usage: Option<Usage>)

  datatype Decoded = DecodeError | Decoded(rec: JsonRecord)

  /** A scanned line: its raw text and what decoding that text yields. */
  datatype Line = Line(text: string, decoded: Decoded)

  /** The start of the reporting window, when there is one. */
  datatype Cutoff = NoCutoff | CutoffAt(instant: int)

  /** One canonical usage record (`dedupRecord`). */
  datatype Record = Record(model: string, project: string, date: string, usage: Usage)

  /** One assignment `deduped[key] = record`; `synthetic` when the key was made up for a line without ID. */
  datatype Write = Write(key: string, record: Record, synthetic: bool)

  /** The outcome of reading a file: it cannot be opened, or these lines were scanned (then maybe a read error). */
  datatype FileContent = OpenFailed | Scanned(lines: seq<Line>, readFailed: bool)

  const UnknownDate: string := "unknown"
  const SyntheticModel: string := "<synthetic>"

  // ---------------------------------------------------------------------------
  // Line filters

  /** The byte prefilter: the raw line mentions an assistant message, compact or with a space. */
  predicate MentionsAssistant(text: string) {
    Contains(text, "\"type\":\"assistant\"") || Contains(text, "\"type\": \"assistant\"")
  }

  /** The line gets past the emptiness check and the prefilter (and so is decoded). */
  predicate ReachesDecoder(line: Line) {
    |line.text| > 0 && MentionsAssistant(line.text)
  }

  /** A decoded record that carries usage and a real model name. */
  predicate Billable(rec: JsonRecord) {
    rec.usage.Some? && rec.model != "" && rec.model != SyntheticModel
  }

  /** The key a line is stored under: its request ID, or `_noid_<base>_<n>` for the n-th accepted line. */
  function SyntheticId(base: string, n: nat): (r: string)
    ensures "_noid_" <= r
  {
    "_noid_" + base + "_" + NatToDecimal(n)
  }

  lemma SyntheticIdInjective(base: string, a: nat, b: nat)
    requires SyntheticId(base, a) == SyntheticId(base, b)
    ensures a == b
  {
    var p := "_noid_" + base + "_";
    assert SyntheticId(base, a)[|p|..] == NatToDecimal(a);
    assert SyntheticId(base, b)[|p|..] == NatToDecimal(b);
    DecimalInjective(a, b);
  }

  // ---------------------------------------------------------------------------
  // The per-file fold (specification of ParseFile)

  /** What one file contributes: its writes in order, its accepted-line count and its parse errors. */
  datatype FileState = FileState(writes: seq<Write>, rawCount: nat, parseErrs: nat)

  /** What the scanner loop makes of one line. */
  datatype Verdict =
    | Ignored                                                  // skipped without a trace
    | Malformed                                                // passed the prefilter, failed to decode
    | Accepted(rec: JsonRecord, date: string, badTimestamp: bool)

  /** The filters of the scanner loop, in their order in the code. */
  function Classify(line: Line, cutoff: Cutoff): (v: Verdict)
    // Only a line that reaches the decoder is looked at; one that then fails to decode is malformed.
    ensures v.Malformed? <==> ReachesDecoder(line) && line.decoded.DecodeError?
    ensures v.Accepted? ==> ReachesDecoder(line) && line.decoded.Decoded? && v.rec == line.decoded.rec && Billable(v.rec)
    // The timestamp rule for a billable line.
    ensures ReachesDecoder(line) && line.decoded.Decoded? && Billable(line.decoded.rec) ==>
              match line.decoded.rec.timestamp
              case Missing =>
                if cutoff.CutoffAt? then v.Ignored? else v.Accepted? && v.date == UnknownDate && !v.badTimestamp
              case Unparseable =>
                v.Accepted? && v.date == UnknownDate && v.badTimestamp
              case Parsed(t, day) =>
                if cutoff.CutoffAt? && t < cutoff.instant then v.Ignored? else v.Accepted? && v.date == day && !v.badTimestamp
  {
    if |line.text| == 0 then Ignored
    else if !MentionsAssistant(line.text) then Ignored
    else if line.decoded.DecodeError? then Malformed
    else
      var rec := line.decoded.rec;
      if rec.usage.None? || rec.model == "" then Ignored
      else if rec.model == SyntheticModel then Ignored
      else match rec.timestamp
        case Parsed(t, day) => if cutoff.CutoffAt? && t < cutoff.instant then Ignored else Accepted(rec, day, false)
        case Unparseable => Accepted(rec, UnknownDate, true)
        case Missing => if cutoff.CutoffAt? then Ignored else Accepted(rec, UnknownDate, false)
  }

  /**
   * The write the `n`-th accepted line of a file makes: keyed by its request
   * ID, or by `_noid_<base>_<n>` when it has none, holding its model, usage
   * and date under `project`.
   */
  function LineWrite(rec: JsonRecord, date: string, n: nat, base: string, project: string): (w: Write)
    requires rec.usage.Some?
    ensures w.synthetic <==> rec.requestId == ""
    ensures !w.synthetic ==> w.key == rec.requestId
    ensures w.synthetic ==> w.key == SyntheticId(base, n)
    ensures w.record == Record(rec.model, project, date, rec.usage.value)
    ensures WellKeyed(w, n, base, project)
  {
    var key := if rec.requestId == "" then SyntheticId(base, n) else rec.requestId;
    Write(key, Record(rec.model, project, date, rec.usage.value), rec.requestId == "")
  }

  /** A request ID that does not look synthetic is hit only by the line that carries it. */
  lemma LineWriteKeyAvoids(rec: JsonRecord, date: string, n: nat, base: string, project: string, id: string)
    requires rec.usage.Some? && rec.requestId != id && !("_noid_" <= id)
    ensures LineWrite(rec, date, n, base, project).key != id
  {
    if rec.requestId == "" {
      assert "_noid_" <= SyntheticId(base, n);
    }
  }

  /** The write a new accepted line makes: numbered `n` within its file, stored under `project`. */
  predicate WellKeyed(w: Write, n: nat, base: string, project: string) {
    && w.record.project == project
    && (w.synthetic ==> w.key == SyntheticId(base, n))
    && (!w.synthetic ==> w.key != "")
  }

  /** One iteration of the scanner loop. */
  function Step(st: FileState, line: Line, cutoff: Cutoff, base: string, project: string): (r: FileState)
    // A decode failure counts one parse error and changes nothing else.
    ensures Classify(line, cutoff).Malformed? ==> r == st.(parseErrs := st.parseErrs + 1)
    // Each accepted line is counted and adds exactly the write it makes; nothing else adds one.
    ensures r.rawCount == st.rawCount + (if Classify(line, cutoff).Accepted? then 1 else 0)
    ensures Classify(line, cutoff).Accepted? ==>
              r.writes == st.writes + [LineWrite(Classify(line, cutoff).rec, Classify(line, cutoff).date, r.rawCount, base, project)]
    ensures !Classify(line, cutoff).Accepted? ==> r.writes == st.writes
    // Parse errors: one per malformed line and one per accepted line with an unparseable timestamp.
    ensures r.parseErrs == st.parseErrs + (if Classify(line, cutoff).Malformed? then 1 else 0)
                                        + (if Classify(line, cutoff).Accepted? && Classify(line, cutoff).badTimestamp then 1 else 0)
  {
    match Classify(line, cutoff)
    case Ignored => st
    case Malformed => st.(parseErrs := st.parseErrs + 1)
    case Accepted(rec, date, badTimestamp) =>
      var raw := st.rawCount + 1;
      FileState(st.writes + [LineWrite(rec, date, raw, base, project)],
                raw, if badTimestamp then st.parseErrs + 1 else st.parseErrs)
  }

  /** The verdicts of a file's accepted lines, in file order. */
  function AcceptedLines(lines: seq<Line>, cutoff: Cutoff): (acc: seq<Verdict>)
    ensures |acc| <= |lines|
    ensures forall i :: 0 <= i < |acc| ==> acc[i].Accepted? && Billable(acc[i].rec)
    decreases |lines|
  {
    if lines == [] then []
    else
      var v := Classify(lines[|lines| - 1], cutoff);
      AcceptedLines(lines[..|lines| - 1], cutoff) + (if v.Accepted? then [v] else [])
  }

  lemma {:induction false} AcceptedLinesAppend(a: seq<Line>, b: seq<Line>, cutoff: Cutoff)
    ensures AcceptedLines(a + b, cutoff) == AcceptedLines(a, cutoff) + AcceptedLines(b, cutoff)
    decreases |b|
  {
    if b == [] {
      assert a + b == a;
    } else {
      var n := |b| - 1;
      assert (a + b)[..|a + b| - 1] == a + b[..n];
      assert (a + b)[|a + b| - 1] == b[n];
      AcceptedLinesAppend(a, b[..n], cutoff);
    }
  }

  /** The accepted verdicts around an accepted line: those before it, its own, those after it. */
  lemma AcceptedAround(lines: seq<Line>, cutoff: Cutoff, li: nat)
    requires li < |lines| && Classify(lines[li], cutoff).Accepted?
    ensures AcceptedLines(lines, cutoff)
            == AcceptedLines(lines[..li], cutoff) + [Classify(lines[li], cutoff)] + AcceptedLines(lines[li + 1..], cutoff)
  {
    assert lines == lines[..li] + [lines[li]] + lines[li + 1..];
    AcceptedLinesAppend(lines[..li] + [lines[li]], lines[li + 1..], cutoff);
    AcceptedLinesAppend(lines[..li], [lines[li]], cutoff);
    assert [lines[li]][..0] == [];
  }

  /** No accepted line among `lines` carries the request ID `id`. */
  predicate NoAcceptedId(lines: seq<Line>, cutoff: Cutoff, id: string) {
    forall j :: 0 <= j < |lines| ==> !(Classify(lines[j], cutoff).Accepted? && Classify(lines[j], cutoff).rec.requestId == id)
  }

  lemma {:induction false} NoAcceptedIdVerdicts(lines: seq<Line>, cutoff: Cutoff, id: string)
    requires NoAcceptedId(lines, cutoff, id)
    ensures forall k :: 0 <= k < |AcceptedLines(lines, cutoff)| ==> AcceptedLines(lines, cutoff)[k].rec.requestId != id
    decreases |lines|
  {
    if lines != [] {
      NoAcceptedIdVerdicts(lines[..|lines| - 1], cutoff, id);
      assert Classify(lines[|lines| - 1], cutoff).Accepted? ==> Classify(lines[|lines| - 1], cutoff).rec.requestId != id;
    }
  }

  /** The scanner loop over a whole file, from zero counters. */
  function FoldLines(lines: seq<Line>, cutoff: Cutoff, base: string, project: string): (st: FileState)
    ensures |st.writes| == st.rawCount
    ensures forall i :: 0 <= i < |st.writes| ==> WellKeyed(st.writes[i], i + 1, base, project)
    decreases |lines|
  {
    if lines == [] then FileState([], 0, 0)
    else
      var prev := FoldLines(lines[..|lines| - 1], cutoff, base, project);
      var r := Step(prev, lines[|lines| - 1], cutoff, base, project);
      assert forall i :: 0 <= i < |prev.writes| ==> r.writes[i] == prev.writes[i];
      r
  }

  /** The i-th write of a file is the one its i-th accepted line makes. */
  lemma {:induction false} FoldLinesWrites(lines: seq<Line>, cutoff: Cutoff, base: string, project: string)
    ensures var ws := FoldLines(lines, cutoff, base, project).writes;
      var acc := AcceptedLines(lines, cutoff);
      && |ws| == |acc|
      && forall i :: 0 <= i < |ws| ==> ws[i] == LineWrite(acc[i].rec, acc[i].date, i + 1, base, project)
    decreases |lines|
  {
    if lines != [] {
      var n := |lines| - 1;
      FoldLinesWrites(lines[..n], cutoff, base, project);
      StepFollowsAccepted(FoldLines(lines[..n], cutoff, base, project), AcceptedLines(lines[..n], cutoff), lines[n], cutoff, base, project);
    }
  }

  /** If the writes so far are those of the accepted verdicts, so are the writes after one more line. */
  lemma StepFollowsAccepted(st: FileState, acc: seq<Verdict>, line: Line, cutoff: Cutoff, base: string, project: string)
    requires |st.writes| == st.rawCount == |acc|
    requires forall i :: 0 <= i < |acc| ==> acc[i].Accepted? && acc[i].rec.usage.Some?
    requires forall i :: 0 <= i < |acc| ==> st.writes[i] == LineWrite(acc[i].rec, acc[i].date, i + 1, base, project)
    ensures var r := Step(st, line, cutoff, base, project);
      var v := Classify(line, cutoff);
      var acc' := acc + (if v.Accepted? then [v] else []);
      && |r.writes| == r.rawCount == |acc'|
      && (forall i :: 0 <= i < |acc'| ==> r.writes[i] == LineWrite(acc'[i].rec, acc'[i].date, i + 1, base, project))
  {
  }

  /**
   * Within one file, an accepted line with request ID `id` that no later
   * accepted line repeats makes a write that no later write of the file
   * overrides.
   */
  lemma FileLastWrite(lines: seq<Line>, cutoff: Cutoff, base: string, project: string, li: nat, id: string)
    requires li < |lines| && Classify(lines[li], cutoff).Accepted? && Classify(lines[li], cutoff).rec.requestId == id
    requires id != "" && !("_noid_" <= id)
    requires NoAcceptedId(lines[li + 1..], cutoff, id)
    ensures var ws := FoldLines(lines, cutoff, base, project).writes;
      var p := |AcceptedLines(lines[..li], cutoff)|;
      var v := Classify(lines[li], cutoff);
      && p < |ws|
      && ws[p].key == id
      && ws[p].record == Record(v.rec.model, project, v.date, v.rec.usage.value)
      && forall q :: p < q < |ws| ==> ws[q].key != id
  {
    var ws := FoldLines(lines, cutoff, base, project).writes;
    var v := Classify(lines[li], cutoff);
    FoldLinesWrites(lines, cutoff, base, project);
    AcceptedAround(lines, cutoff, li);
    var acc := AcceptedLines(lines, cutoff);
    var p := |AcceptedLines(lines[..li], cutoff)|;
    assert acc[p] == v;
    assert ws[p] == LineWrite(v.rec, v.date, p + 1, base, project);
    LaterLinesAvoidKey(lines, cutoff, base, project, li, id);
  }

  /** The writes of the accepted lines after line `li` avoid `id` when none of those lines carries it. */
  lemma LaterLinesAvoidKey(lines: seq<Line>, cutoff: Cutoff, base: string, project: string, li: nat, id: string)
    requires li < |lines| && Classify(lines[li], cutoff).Accepted?
    requires !("_noid_" <= id)
    requires NoAcceptedId(lines[li + 1..], cutoff, id)
    ensures var ws := FoldLines(lines, cutoff, base, project).writes;
      forall q :: |AcceptedLines(lines[..li], cutoff)| < q < |ws| ==> ws[q].key != id
  {
    var ws := FoldLines(lines, cutoff, base, project).writes;
    var acc := AcceptedLines(lines, cutoff);
    var p := |AcceptedLines(lines[..li], cutoff)|;
    var after := AcceptedLines(lines[li + 1..], cutoff);
    FoldLinesWrites(lines, cutoff, base, project);
    AcceptedAround(lines, cutoff, li);
    NoAcceptedIdVerdicts(lines[li + 1..], cutoff, id);
    forall q | p < q < |ws|
      ensures ws[q].key != id
    {
      assert acc[q] == after[q - p - 1];
      LineWriteKeyAvoids(acc[q].rec, acc[q].date, q + 1, base, project, id);
    }
  }

  /** Two accepted lines with the same request ID leave one record, the second line's. */
  lemma TwoLinesSameId(l1: Line, l2: Line, cutoff: Cutoff, base: string, project: string, id: string)
    requires Classify(l1, cutoff).Accepted? && Classify(l1, cutoff).rec.requestId == id
    requires Classify(l2, cutoff).Accepted? && Classify(l2, cutoff).rec.requestId == id
    requires id != ""
    ensures var v := Classify(l2, cutoff);
      ApplyWrites(map[], FoldLines([l1, l2], cutoff, base, project).writes)
      == map[id := Record(v.rec.model, project, v.date, v.rec.usage.value)]
  {
    var v1, v2 := Classify(l1, cutoff), Classify(l2, cutoff);
    AcceptedPair(l1, l2, cutoff);
    FoldLinesWrites([l1, l2], cutoff, base, project);
    var ws := FoldLines([l1, l2], cutoff, base, project).writes;
    assert ws[0] == LineWrite(v1.rec, v1.date, 1, base, project);
    assert ws[1] == LineWrite(v2.rec, v2.date, 2, base, project);
    assert ws == [ws[0], ws[1]];
    ApplyTwoSameKey(ws[0], ws[1]);
  }

  lemma AcceptedPair(l1: Line, l2: Line, cutoff: Cutoff)
    requires Classify(l1, cutoff).Accepted? && Classify(l2, cutoff).Accepted?
    ensures AcceptedLines([l1, l2], cutoff) == [Classify(l1, cutoff), Classify(l2, cutoff)]
  {
    assert [l1, l2][..1] == [l1];
    assert [l1][..0] == [];
  }

  /** Two writes to one key leave the second one's record. */
  lemma ApplyTwoSameKey(w1: Write, w2: Write)
    requires w1.key == w2.key
    ensures ApplyWrites(map[], [w1, w2]) == map[w2.key := w2.record]
  {
    assert [w1, w2][..1] == [w1];
    assert [w1][..0] == [];
    assert ApplyWrites(map[], [w1]) == map[w1.key := w1.record];
    assert map[w1.key := w1.record][w2.key := w2.record] == map[w2.key := w2.record];
  }

  /** A file none of whose accepted lines carries `id` never writes the key `id`. */
  lemma FileAvoidsKey(lines: seq<Line>, cutoff: Cutoff, base: string, project: string, id: string)
    requires NoAcceptedId(lines, cutoff, id) && !("_noid_" <= id)
    ensures var ws := FoldLines(lines, cutoff, base, project).writes;
      forall q :: 0 <= q < |ws| ==> ws[q].key != id
  {
    var ws := FoldLines(lines, cutoff, base, project).writes;
    var acc := AcceptedLines(lines, cutoff);
    FoldLinesWrites(lines, cutoff, base, project);
    NoAcceptedIdVerdicts(lines, cutoff, id);
    forall q | 0 <= q < |ws|
      ensures ws[q].key != id
    {
      LineWriteKeyAvoids(acc[q].rec, acc[q].date, q + 1, base, project, id);
    }
  }

  /** Synthetic keys never collide within one file: the n-th accepted line gets the number n. */
  lemma SyntheticIdsDistinct(lines: seq<Line>, cutoff: Cutoff, base: string, project: string, i: nat, j: nat)
    requires var ws := FoldLines(lines, cutoff, base, project).writes;
      i < j < |ws| && ws[i].synthetic && ws[j].synthetic
    ensures var ws := FoldLines(lines, cutoff, base, project).writes;
      ws[i].key != ws[j].key
  {
    var ws := FoldLines(lines, cutoff, base, project).writes;
    assert WellKeyed(ws[i], i + 1, base, project) && WellKeyed(ws[j], j + 1, base, project);
    if ws[i].key == ws[j].key {
      SyntheticIdInjective(base, i + 1, j + 1);
    }
  }

  /** A file that yields no billable line leaves every counter and the map alone. */
  lemma {:induction false} NothingBillableNoWrites(lines: seq<Line>, cutoff: Cutoff, base: string, project: string)
    requires forall i :: 0 <= i < |lines| ==> !ReachesDecoder(lines[i])
    ensures FoldLines(lines, cutoff, base, project) == FileState([], 0, 0)
    decreases |lines|
  {
    if lines != [] {
      NothingBillableNoWrites(lines[..|lines| - 1], cutoff, base, project);
    }
  }

  // ---------------------------------------------------------------------------
  // The shared dedup map

  /** Performing the writes in order on a map. */
  function ApplyWrites(m: map<string, Record>, ws: seq<Write>): map<string, Record>
    decreases |ws|
  {
    if ws == [] then m
    else ApplyWrites(m, ws[..|ws| - 1])[ws[|ws| - 1].key := ws[|ws| - 1].record]
  }

  lemma ApplyWritesSnoc(m: map<string, Record>, ws: seq<Write>, w: Write)
    ensures ApplyWrites(m, ws + [w]) == ApplyWrites(m, ws)[w.key := w.record]
  {
    assert (ws + [w])[..|ws|] == ws;
  }

  lemma {:induction false} ApplyWritesAppend(m: map<string, Record>, ws1: seq<Write>, ws2: seq<Write>)
    ensures ApplyWrites(m, ws1 + ws2) == ApplyWrites(ApplyWrites(m, ws1), ws2)
    decreases |ws2|
  {
    if ws2 != [] {
      assert (ws1 + ws2)[..|ws1 + ws2| - 1] == ws1 + ws2[..|ws2| - 1];
      assert (ws1 + ws2)[|ws1 + ws2| - 1] == ws2[|ws2| - 1];
      ApplyWritesAppend(m, ws1, ws2[..|ws2| - 1]);
    } else {
      assert ws1 + ws2 == ws1;
    }
  }

  /** A key is in the map after the writes iff it was there before or some write targets it. */
  lemma {:induction false} KeysAfterWrites(m: map<string, Record>, ws: seq<Write>, k: string)
    ensures k in ApplyWrites(m, ws) <==> k in m || exists i :: 0 <= i < |ws| && ws[i].key == k
    decreases |ws|
  {
    if ws != [] {
      var n := |ws| - 1;
      KeysAfterWrites(m, ws[..n], k);
      if exists i :: 0 <= i < n && ws[..n][i].key == k {
        var i :| 0 <= i < n && ws[..n][i].key == k;
        assert ws[i].key == k;
      }
      if exists i :: 0 <= i < |ws| && ws[i].key == k {
        var i :| 0 <= i < |ws| && ws[i].key == k;
        if i < n {
          assert ws[..n][i].key == k;
        }
      }
    }
  }

  /** Last write wins, whole record: the record under a key is the one of the last write to it. */
  lemma {:induction false} LastWriteWins(m: map<string, Record>, ws: seq<Write>, i: nat)
    requires i < |ws|
    requires forall j :: i < j < |ws| ==> ws[j].key != ws[i].key
    ensures ws[i].key in ApplyWrites(m, ws) && ApplyWrites(m, ws)[ws[i].key] == ws[i].record
    decreases |ws|
  {
    var n := |ws| - 1;
    if i < n {
      LastWriteWins(m, ws[..n], i);
    }
  }

  /** The writes of several files, one run after another. */
  function Concat(chunks: seq<seq<Write>>): seq<Write>
    decreases |chunks|
  {
    if chunks == [] then [] else Concat(chunks[..|chunks| - 1]) + chunks[|chunks| - 1]
  }

  /** The runs up to `k` come first; if no later run writes `id`, nothing after them does. */
  lemma {:induction false} ConcatTailAvoids(chunks: seq<seq<Write>>, k: nat, id: string)
    requires k <= |chunks|
    requires forall j, q :: k <= j < |chunks| && 0 <= q < |chunks[j]| ==> chunks[j][q].key != id
    ensures Concat(chunks[..k]) <= Concat(chunks)
    ensures forall q :: |Concat(chunks[..k])| <= q < |Concat(chunks)| ==> Concat(chunks)[q].key != id
    decreases |chunks|
  {
    if k < |chunks| {
      var n := |chunks| - 1;
      assert chunks[..n][..k] == chunks[..k];
      ConcatTailAvoids(chunks[..n], k, id);
      var before := Concat(chunks[..n]);
      forall q | |before| <= q < |Concat(chunks)|
        ensures Concat(chunks)[q].key != id
      {
        assert Concat(chunks)[q] == chunks[n][q - |before|];
      }
    } else {
      assert chunks[..k] == chunks;
    }
  }

  lemma ConcatPrefixStep(chunks: seq<seq<Write>>, k: nat)
    requires k < |chunks|
    ensures Concat(chunks[..k + 1]) == Concat(chunks[..k]) + chunks[k]
  {
    assert chunks[..k + 1][..k] == chunks[..k];
  }

  /**
   * Last write wins across runs: a write to `id` that nothing after it in its
   * run, and nothing in a later run, writes again decides the record under `id`.
   */
  lemma ChunkLastWrite(chunks: seq<seq<Write>>, fi: nat, p: nat, id: string)
    requires fi < |chunks| && p < |chunks[fi]| && chunks[fi][p].key == id
    requires forall q :: p < q < |chunks[fi]| ==> chunks[fi][q].key != id
    requires forall j, q :: fi < j < |chunks| && 0 <= q < |chunks[j]| ==> chunks[j][q].key != id
    ensures var d := ApplyWrites(map[], Concat(chunks)); id in d && d[id] == chunks[fi][p].record
  {
    ConcatTailAvoids(chunks, fi + 1, id);
    ConcatPrefixStep(chunks, fi);
    var pre := Concat(chunks[..fi]);
    var ws := Concat(chunks);
    assert ws[|pre| + p] == chunks[fi][p];
    LastWriteWins(map[], ws, |pre| + p);
  }

  /** A key no write targets keeps its old record. */
  lemma {:induction false} UnwrittenKeysKept(m: map<string, Record>, ws: seq<Write>, k: string)
    requires k in m
    requires forall i :: 0 <= i < |ws| ==> ws[i].key != k
    ensures k in ApplyWrites(m, ws) && ApplyWrites(m, ws)[k] == m[k]
    decreases |ws|
  {
    if ws != [] {
      UnwrittenKeysKept(m, ws[..|ws| - 1], k);
    }
  }

  /** The map never gains more keys than there were writes (`TotalRecords` can only be smaller than the line count). */
  lemma {:induction false} KeysBoundedByWrites(m: map<string, Record>, ws: seq<Write>)
    ensures |ApplyWrites(m, ws).Keys| <= |m.Keys| + |ws|
    decreases |ws|
  {
    if ws != [] {
      KeysBoundedByWrites(m, ws[..|ws| - 1]);
      var before := ApplyWrites(m, ws[..|ws| - 1]);
      assert ApplyWrites(m, ws).Keys == before.Keys + {ws[|ws| - 1].key};
    }
  }

  /** A sequence of states, each the Step of the previous one, ends in the fold. */
  lemma {:induction false} TraceIsFold(lines: seq<Line>, cutoff: Cutoff, base: string, project: string, trace: seq<FileState>)
    requires |trace| == |lines| + 1 && trace[0] == FileState([], 0, 0)
    requires forall k :: 0 <= k < |lines| ==> trace[k + 1] == Step(trace[k], lines[k], cutoff, base, project)
    ensures trace[|lines|] == FoldLines(lines, cutoff, base, project)
    decreases |lines|
  {
    if lines != [] {
      var n := |lines| - 1;
      TraceIsFold(lines[..n], cutoff, base, project, trace[..n + 1]);
    }
  }

  /** The caller's map, shared by every parseFile call of one run. */
  class Dedup {
    var records: map<string, Record>

    constructor()
      ensures records == map[]
    {
      records := map[];
    }
  }

  /**
   * One iteration of parseFile's scanner loop: classifies the line, updates
   * the two counters and, for an accepted line, stores its record in `d`.
   * `m` and `writes` are the map before the file and the writes made so far.
   */
  method ScanLine(line: Line, cutoff: Cutoff, base: string, project: string, d: Dedup,
                  rawCount: nat, parseErrs: nat, ghost m: map<string, Record>, ghost writes: seq<Write>)
    returns (rawCount': nat, parseErrs': nat, ghost writes': seq<Write>)
    requires d.records == ApplyWrites(m, writes)
    modifies d
    ensures FileState(writes', rawCount', parseErrs') == Step(FileState(writes, rawCount, parseErrs), line, cutoff, base, project)
    ensures d.records == ApplyWrites(m, writes')
  {
    rawCount', parseErrs', writes' := rawCount, parseErrs, writes;
    match Classify(line, cutoff) {
      case Ignored =>
      case Malformed =>
        parseErrs' := parseErrs' + 1;
      case Accepted(rec, date, badTimestamp) =>
        if badTimestamp {
          parseErrs' := parseErrs' + 1;
        }
        rawCount' := rawCount' + 1;
        var requestId := rec.requestId;
        if requestId == "" {
          requestId := SyntheticId(base, rawCount');
        }
        var record := Record(rec.model, project, date, rec.usage.value);
        d.records := d.records[requestId := record];
        ApplyWritesSnoc(m, writes, Write(requestId, record, rec.requestId == ""));
        writes' := writes' + [Write(requestId, record, rec.requestId == "")];
    }
  }

  /**
   * parseFile: scans the lines, counts accepted lines and parse errors, and
   * writes every accepted line into `d`. A file that cannot be opened changes
   * nothing; a read error keeps the writes already made and is reported.
   */
  method ParseFile(base: string, content: FileContent, cutoff: Cutoff, project: string, d: Dedup)
    returns (rawCount: nat, parseErrs: nat, failed: bool)
    modifies d
    ensures content.OpenFailed? ==> rawCount == 0 && parseErrs == 0 && failed && d.records == old(d.records)
    ensures content.Scanned? ==>
              var st := FoldLines(content.lines, cutoff, base, project);
              && d.records == ApplyWrites(old(d.records), st.writes)
              && rawCount == st.rawCount && parseErrs == st.parseErrs && failed == content.readFailed
  {
    if content.OpenFailed? {
      return 0, 0, true;
    }
    var lines := content.lines;
    rawCount, parseErrs := 0, 0;
    ghost var writes: seq<Write> := [];
    ghost var trace: seq<FileState> := [FileState([], 0, 0)];
    for i := 0 to |lines|
      invariant |trace| == i + 1 && trace[0] == FileState([], 0, 0)
      invariant forall k :: 0 <= k < i ==> trace[k + 1] == Step(trace[k], lines[k], cutoff, base, project)
      invariant trace[i] == FileState(writes, rawCount, parseErrs)
      invariant d.records == ApplyWrites(old(d.records), writes)
    {
      rawCount, parseErrs, writes := ScanLine(lines[i], cutoff, base, project, d, rawCount, parseErrs, old(d.records), writes);
      trace := trace + [FileState(writes, rawCount, parseErrs)];
    }
    TraceIsFold(lines, cutoff, base, project, trace);
    failed := content.readFailed;
  }
}
