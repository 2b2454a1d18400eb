/** The append-only JSON-lines ledger: replay of its bytes, the append guard, and the
    projection of one change's transitions (record.go, append.go, report/model.go). */
module Ledger {
  import opened Records

  datatype Code = Malformed | Invalid | WrongFamily | Duplicate | BrokenChain | TornTail | WriteFailed

  // ---------------------------------------------------------------------------------
  // Record sequences
  // ---------------------------------------------------------------------------------

  predicate HasId(rs: seq<Record>, id: Id) {
    exists i :: 0 <= i < |rs| && rs[i].id == id
  }

  /** The revision the latest transition of change `c` resulted in. */
  function LastRevision(rs: seq<Record>, c: ChangeId): Option<nat> {
    if rs == [] then None
    else
      var r := rs[|rs| - 1];
      if r.change == c && r.Transition() then r.resulting else LastRevision(rs[..|rs| - 1], c)
  }

  /** What the append guard asks of a record, given the records before it. */
  predicate Fits(rs: seq<Record>, r: Record) {
    && !HasId(rs, r.id)
    && (r.Transition() ==>
        LastRevision(rs, r.change).None? || LastRevision(rs, r.change) == r.expected)
  }

  /** The transitions of one change, in append order. */
  function Transitions(rs: seq<Record>, c: ChangeId): seq<Record> {
    if rs == [] then []
    else
      var r := rs[|rs| - 1];
      Transitions(rs[..|rs| - 1], c) + (if r.change == c && r.Transition() then [r] else [])
  }

  /** Well-formedness without reference to any replay: valid records of one family, no
      identity twice, and within each change one contiguous run of revisions. */
  ghost predicate WellFormed(rs: seq<Record>, family: Family) {
    Filed(rs, family) && NoRepeats(rs) && Contiguous(rs)
  }

  predicate Filed(rs: seq<Record>, family: Family) {
    forall i :: 0 <= i < |rs| ==> rs[i].Valid() && rs[i].family == family
  }

  predicate NoRepeats(rs: seq<Record>) {
    forall i, j :: 0 <= i < j < |rs| ==> rs[i].id != rs[j].id
  }

  ghost predicate Contiguous(rs: seq<Record>) {
    forall c: ChangeId :: Chained(Transitions(rs, c))
  }

  predicate Chained(ts: seq<Record>) {
    forall k :: 0 <= k < |ts| - 1 ==> ts[k].resulting == ts[k + 1].expected
  }

  lemma ChainedExtends(ts: seq<Record>, r: Record)
    ensures Chained(ts + [r]) <==> Chained(ts) && (ts == [] || ts[|ts| - 1].resulting == r.expected)
  {
    var more := ts + [r];
    forall k | 0 <= k < |ts| ensures more[k] == ts[k] {}
    assert more[|ts|] == r;
    if Chained(more) {
      forall k | 0 <= k < |ts| - 1 ensures ts[k].resulting == ts[k + 1].expected {
        assert more[k].resulting == more[k + 1].expected;
      }
      assert ts != [] ==> more[|ts| - 1].resulting == more[|ts| - 1 + 1].expected;
    }
  }

  lemma {:induction false} TransitionsAppend(rs: seq<Record>, r: Record, c: ChangeId)
    ensures Transitions(rs + [r], c) ==
            Transitions(rs, c) + (if r.change == c && r.Transition() then [r] else [])
    ensures LastRevision(rs + [r], c) ==
            if r.change == c && r.Transition() then r.resulting else LastRevision(rs, c)
  {
    assert (rs + [r])[..|rs|] == rs;
  }

  lemma {:induction false} LastRevisionIsLastTransition(rs: seq<Record>, c: ChangeId)
    ensures LastRevision(rs, c) ==
            var ts := Transitions(rs, c);
            if ts == [] then None else ts[|ts| - 1].resulting
    ensures forall k :: 0 <= k < |Transitions(rs, c)| ==>
              var t := Transitions(rs, c)[k];
              t in rs && t.change == c && t.Transition()
  {
    if rs != [] {
      LastRevisionIsLastTransition(rs[..|rs| - 1], c);
      assert rs == rs[..|rs| - 1] + [rs[|rs| - 1]];
    }
  }

  /** One more record keeps a ledger well formed exactly when it is valid and it fits. */
  lemma {:induction false} WellFormedExtends(rs: seq<Record>, r: Record, family: Family)
    ensures WellFormed(rs + [r], family) <==>
            WellFormed(rs, family) && r.Valid() && r.family == family && Fits(rs, r)
  {
    FiledExtends(rs, r, family);
    NoRepeatsExtends(rs, r);
    if Filed(rs, family) { ContiguousExtends(rs, r, family); }
  }

  lemma FiledExtends(rs: seq<Record>, r: Record, family: Family)
    ensures Filed(rs + [r], family) <==> Filed(rs, family) && r.Valid() && r.family == family
  {
    var more := rs + [r];
    forall i | 0 <= i < |rs| ensures rs[i] == more[i] {}
    assert more[|rs|] == r;
  }

  lemma NoRepeatsExtends(rs: seq<Record>, r: Record)
    ensures NoRepeats(rs + [r]) <==> NoRepeats(rs) && !HasId(rs, r.id)
  {
    var more := rs + [r];
    forall i | 0 <= i < |rs| ensures rs[i] == more[i] {}
    assert more[|rs|] == r;
  }

  predicate Follows(rs: seq<Record>, r: Record) {
    r.Transition() ==> LastRevision(rs, r.change).None? || LastRevision(rs, r.change) == r.expected
  }

  lemma ContiguousExtends(rs: seq<Record>, r: Record, family: Family)
    requires Filed(rs, family)
    ensures Contiguous(rs + [r]) <==> Contiguous(rs) && Follows(rs, r)
  {
    hide Filed, Chained, Transitions, Follows;
    forall c: ChangeId
      ensures Chained(Transitions(rs + [r], c)) <==> (Chained(Transitions(rs, c)) && (c == r.change ==> Follows(rs, r)))
    {
      RunExtends(rs, r, c, family);
    }
    assert Chained(Transitions(rs + [r], r.change)) ==> Follows(rs, r);
  }

  lemma RunExtends(rs: seq<Record>, r: Record, c: ChangeId, family: Family)
    requires Filed(rs, family)
    ensures Chained(Transitions(rs + [r], c)) <==> (Chained(Transitions(rs, c)) && (c == r.change ==> Follows(rs, r)))
  {
    TransitionsAppend(rs, r, c);
    var own := Transitions(rs, c);
    assert own + [] == own;
    ChainedExtends(own, r);
    LastIsSet(rs, c, family);
  }

  lemma LastIsSet(rs: seq<Record>, c: ChangeId, family: Family)
    requires Filed(rs, family)
    ensures var ts := Transitions(rs, c);
            LastRevision(rs, c) == (if ts == [] then None else ts[|ts| - 1].resulting)
            && (ts != [] ==> ts[|ts| - 1].resulting.Some?)
  {
    LastRevisionIsLastTransition(rs, c);
    var ts := Transitions(rs, c);
    if ts != [] {
      var i :| 0 <= i < |rs| && rs[i] == ts[|ts| - 1];
      assert rs[i].Valid();
    }
  }

  // ---------------------------------------------------------------------------------
  // Replay
  // ---------------------------------------------------------------------------------

  /** The JSON codec, left abstract: encode, strict decode, and json.Valid. */
  datatype Codec = Codec(encode: Record -> string, decode: string -> Option<Record>, json: string -> bool)

  /** What the proofs use of JSON: a round trip, no raw newline inside an encoding, and no
      strict prefix of an encoding that is a complete JSON value. */
  ghost predicate Lawful(codec: Codec) {
    forall r: Record ::
      var text := codec.encode(r);
      && codec.decode(text) == Some(r)
      && codec.json(text)
      && text != "" && '\n' !in text
      && (forall k :: 0 <= k < |text| ==> !codec.json(text[..k]))
  }

  datatype Replayed = Replayed(records: seq<Record>, torn: bool)

  function Bytes(codec: Codec, rs: seq<Record>): string {
    if rs == [] then "" else Bytes(codec, rs[..|rs| - 1]) + codec.encode(rs[|rs| - 1]) + "\n"
  }

  /** The index of the first newline at or after `from`, or the length. */
  function NextNewline(raw: string, from: nat): (n: nat)
    requires from <= |raw|
    ensures from <= n <= |raw|
    ensures n < |raw| ==> raw[n] == '\n'
    ensures forall k :: from <= k < n ==> raw[k] != '\n'
    decreases |raw| - from
  {
    if from == |raw| || raw[from] == '\n' then from else NextNewline(raw, from + 1)
  }

  /** The length of the prefix of `raw` made of newline-terminated lines. */
  function CompleteLength(raw: string): (n: nat)
    ensures n <= |raw|
    ensures n > 0 ==> raw[n - 1] == '\n'
    ensures forall k :: n <= k < |raw| ==> raw[k] != '\n'
  {
    if raw == "" then 0
    else if raw[|raw| - 1] == '\n' then |raw|
    else CompleteLength(raw[..|raw| - 1])
  }

  /** One complete line, judged after the records already replayed. */
  function AcceptLine(codec: Codec, rs: seq<Record>, line: string, family: Family): Result<Record, Code> {
    if line == "" then Err(Malformed)
    else match codec.decode(line)
      case None => Err(Malformed)
      case Some(r) =>
        if !r.Valid() then Err(Invalid)
        else if r.family != family then Err(WrongFamily)
        else if HasId(rs, r.id) then Err(Duplicate)
        else if !Fits(rs, r) then Err(BrokenChain)
        else Ok(r)
  }

  /** Replay of newline-terminated text from position `from`, after the records `rs`. */
  function AcceptLines(codec: Codec, rs: seq<Record>, text: string, from: nat, family: Family)
    : Result<seq<Record>, Code>
    requires from <= |text|
    decreases |text| - from
  {
    if from == |text| then Ok(rs)
    else
      var n := NextNewline(text, from);
      match AcceptLine(codec, rs, text[from..n], family)
      case Err(code) => Err(code)
      case Ok(r) => if n == |text| then Ok(rs + [r]) else AcceptLines(codec, rs + [r], text, n + 1, family)
  }

  function ReplaySpec(codec: Codec, raw: string, family: Family): Result<Replayed, Code> {
    var n := CompleteLength(raw);
    if n < |raw| && codec.json(raw[n..]) then Err(Malformed)
    else match AcceptLines(codec, [], raw[..n], 0, family)
      case Err(code) => Err(code)
      case Ok(rs) => Ok(Replayed(rs, n < |raw|))
  }

  /** The replay loop's tables: the ids seen and each change's latest revision. */
  ghost predicate Tracks(ids: set<Id>, chains: map<ChangeId, nat>, rs: seq<Record>) {
    && (forall id :: id in ids <==> HasId(rs, id))
    && (forall c: ChangeId :: LastRevision(rs, c) == if c in chains then Some(chains[c]) else None)
  }

  lemma TracksAppend(ids: set<Id>, chains: map<ChangeId, nat>, rs: seq<Record>, r: Record)
    requires Tracks(ids, chains, rs) && r.Valid()
    ensures Tracks(ids + {r.id},
                   if r.Transition() then chains[r.change := r.resulting.value] else chains, rs + [r])
  {
    HasIdAppend(rs, r);
    forall c: ChangeId
      ensures LastRevision(rs + [r], c) ==
              if r.change == c && r.Transition() then r.resulting else LastRevision(rs, c)
    {
      TransitionsAppend(rs, r, c);
    }
  }

  lemma AcceptLinesStep(codec: Codec, rs: seq<Record>, text: string, from: nat, family: Family)
    requires from < |text| && text[|text| - 1] == '\n'
    ensures var n := NextNewline(text, from);
            && n < |text|
            && match AcceptLine(codec, rs, text[from..n], family)
               case Err(code) => AcceptLines(codec, rs, text, from, family) == Err(code)
               case Ok(r) =>
                 AcceptLines(codec, rs, text, from, family) == AcceptLines(codec, rs + [r], text, n + 1, family)
  {
  }

  /** replay: one pass over the lines with an id set and a map of chain heads. */
  method Replay(codec: Codec, raw: string, family: Family) returns (result: Result<Replayed, Code>)
    ensures result == ReplaySpec(codec, raw, family)
  {
    var n := CompleteLength(raw);
    if n < |raw| && codec.json(raw[n..]) {
      return Err(Malformed);
    }
    var text := raw[..n];
    var records: seq<Record>, ids: set<Id>, chains: map<ChangeId, nat> := [], {}, map[];
    var start := 0;
    while start < |text|
      invariant start <= |text|
      invariant Tracks(ids, chains, records)
      invariant AcceptLines(codec, [], text, 0, family) == AcceptLines(codec, records, text, start, family)
    {
      AcceptLinesStep(codec, records, text, start, family);
      var end := NextNewline(text, start);
      var line := text[start..end];
      if line == "" { return Err(Malformed); }
      var decoded := codec.decode(line);
      if decoded.None? { return Err(Malformed); }
      var r := decoded.value;
      if !r.Valid() { return Err(Invalid); }
      if r.family != family { return Err(WrongFamily); }
      if r.id in ids { return Err(Duplicate); }
      TracksAppend(ids, chains, records, r);
      if r.expected.Some? {
        if r.change in chains && r.expected.value != chains[r.change] { return Err(BrokenChain); }
        chains := chains[r.change := r.resulting.value];
      }
      ids := ids + {r.id};
      records := records + [r];
      start := end + 1;
    }
    return Ok(Replayed(records, n < |raw|));
  }

  lemma HasIdAppend(rs: seq<Record>, r: Record)
    ensures forall id :: HasId(rs + [r], id) <==> HasId(rs, id) || id == r.id
  {
    forall id ensures HasId(rs + [r], id) <==> HasId(rs, id) || id == r.id {
      if HasId(rs, id) {
        var i :| 0 <= i < |rs| && rs[i].id == id;
        assert (rs + [r])[i].id == id;
      }
      assert (rs + [r])[|rs|] == r;
    }
  }

  // ---------------------------------------------------------------------------------
  // Replay against the encoder: soundness, agreement with append, torn writes
  // ---------------------------------------------------------------------------------

  /** Whatever the bytes, the records a replay returns form a well-formed ledger. */
  lemma {:induction false} AcceptedIsWellFormed(codec: Codec, rs: seq<Record>, text: string, from: nat, family: Family)
    requires from <= |text| && WellFormed(rs, family)
    ensures var out := AcceptLines(codec, rs, text, from, family);
            out.Ok? ==> WellFormed(out.value, family)
    decreases |text| - from
  {
    if from < |text| {
      var n := NextNewline(text, from);
      var line := AcceptLine(codec, rs, text[from..n], family);
      if line.Ok? {
        WellFormedExtends(rs, line.value, family);
        if n < |text| {
          AcceptedIsWellFormed(codec, rs + [line.value], text, n + 1, family);
        }
      }
    }
  }

  lemma ReplayIsSound(codec: Codec, raw: string, family: Family)
    ensures var out := ReplaySpec(codec, raw, family);
            out.Ok? ==> WellFormed(out.value.records, family)
  {
    var n := CompleteLength(raw);
    assert WellFormed([], family);
    AcceptedIsWellFormed(codec, [], raw[..n], 0, family);
  }

  lemma {:induction false} BytesPrefix(codec: Codec, rs: seq<Record>, k: nat)
    requires k <= |rs|
    ensures Bytes(codec, rs[..k]) <= Bytes(codec, rs)
  {
    if k < |rs| {
      BytesPrefix(codec, rs[..|rs| - 1], k);
      assert rs[..|rs| - 1][..k] == rs[..k];
    } else {
      assert rs[..k] == rs;
    }
  }

  lemma NextNewlineIs(text: string, from: nat, n: nat)
    requires from <= n < |text| && text[n] == '\n' && forall k :: from <= k < n ==> text[k] != '\n'
    ensures NextNewline(text, from) == n
  {
  }

  lemma CompleteLengthIs(raw: string, n: nat)
    requires n <= |raw| && (n > 0 ==> raw[n - 1] == '\n') && forall k :: n <= k < |raw| ==> raw[k] != '\n'
    ensures CompleteLength(raw) == n
  {
  }

  /** One encoded line at position `from` is accepted exactly when the record may follow. */
  lemma AcceptEncodedLine(codec: Codec, rs: seq<Record>, r: Record, text: string, from: nat, family: Family)
    requires Lawful(codec)
    requires from + |codec.encode(r)| < |text|
    requires text[from..from + |codec.encode(r)|] == codec.encode(r)
    requires text[from + |codec.encode(r)|] == '\n'
    ensures var next := from + |codec.encode(r)| + 1;
            if r.Valid() && r.family == family && Fits(rs, r)
            then AcceptLines(codec, rs, text, from, family) == AcceptLines(codec, rs + [r], text, next, family)
            else AcceptLines(codec, rs, text, from, family).Err?
  {
    var line := codec.encode(r);
    forall k | from <= k < from + |line| ensures text[k] != '\n' {
      assert text[k] == line[k - from];
    }
    NextNewlineIs(text, from, from + |line|);
  }

  lemma LastLine(codec: Codec, rs: seq<Record>, text: string)
    requires rs != [] && Bytes(codec, rs) <= text
    ensures var before, line := Bytes(codec, rs[..|rs| - 1]), codec.encode(rs[|rs| - 1]);
            && before <= text
            && |Bytes(codec, rs)| == |before| + |line| + 1 <= |text|
            && text[|before|..|before| + |line|] == line
            && text[|before| + |line|] == '\n'
  {
    LineAfter(text, Bytes(codec, rs[..|rs| - 1]), codec.encode(rs[|rs| - 1]));
  }

  lemma LineAfter(text: string, before: string, line: string)
    requires before + line + "\n" <= text
    ensures before <= text && |before| + |line| < |text|
    ensures text[|before|..|before| + |line|] == line && text[|before| + |line|] == '\n'
  {
    var all := before + line + "\n";
    assert text == all + text[|all|..];
    assert all[..|before|] == before && all[|before|..|before| + |line|] == line;
  }

  /** Reading past the encodings of `rs` leaves exactly `rs` accepted, or refuses. */
  lemma {:induction false} AcceptEncoded(codec: Codec, rs: seq<Record>, text: string, family: Family)
    requires Lawful(codec) && Bytes(codec, rs) <= text
    ensures if WellFormed(rs, family)
            then AcceptLines(codec, [], text, 0, family) == AcceptLines(codec, rs, text, |Bytes(codec, rs)|, family)
            else AcceptLines(codec, [], text, 0, family).Err?
  {
    hide Lawful, AcceptLines;
    if rs == [] {
      EmptyIsWellFormed(family);
    } else {
      var before, r := rs[..|rs| - 1], rs[|rs| - 1];
      LastLine(codec, rs, text);
      AcceptEncoded(codec, before, text, family);
      WellFormedExtends(before, r, family);
      assert before + [r] == rs;
      AcceptEncodedLine(codec, before, r, text, |Bytes(codec, before)|, family);
    }
  }

  lemma EmptyIsWellFormed(family: Family)
    ensures WellFormed([], family)
  {
  }

  lemma BytesEndsLine(codec: Codec, rs: seq<Record>)
    ensures Bytes(codec, rs) != "" ==> Bytes(codec, rs)[|Bytes(codec, rs)| - 1] == '\n'
    ensures rs != [] ==> Bytes(codec, rs) != ""
  {
  }

  /** The bytes of a record list replay to that list exactly when it is well formed. */
  lemma ReplayDecidesWellFormed(codec: Codec, rs: seq<Record>, family: Family)
    requires Lawful(codec)
    ensures if WellFormed(rs, family)
            then ReplaySpec(codec, Bytes(codec, rs), family) == Ok(Replayed(rs, false))
            else ReplaySpec(codec, Bytes(codec, rs), family).Err?
  {
    var raw := Bytes(codec, rs);
    BytesEndsLine(codec, rs);
    CompleteLengthIs(raw, |raw|);
    assert raw[..|raw|] == raw;
    AcceptEncoded(codec, rs, raw, family);
  }

  /** How many of the records have their whole line, newline included, in the first `n` bytes. */
  function Whole(codec: Codec, rs: seq<Record>, n: nat): (k: nat)
    ensures k <= |rs|
    ensures |Bytes(codec, rs[..k])| <= n
  {
    if |Bytes(codec, rs)| <= n then assert rs[..|rs|] == rs; |rs|
    else
      var k := Whole(codec, rs[..|rs| - 1], n);
      assert rs[..|rs| - 1][..k] == rs[..k];
      k
  }

  lemma {:induction false} WholeIsLargest(codec: Codec, rs: seq<Record>, n: nat)
    ensures var k := Whole(codec, rs, n); k < |rs| ==> n < |Bytes(codec, rs[..k + 1])|
  {
    if |Bytes(codec, rs)| > n {
      var before := rs[..|rs| - 1];
      var k := Whole(codec, before, n);
      WholeIsLargest(codec, before, n);
      assert rs[..|rs|] == rs;
      if k < |before| {
        assert before[..k + 1] == rs[..k + 1];
      }
    }
  }

  /** A write torn after any number of bytes: replay returns exactly the records whose
      lines are whole, reporting a torn tail when bytes remain; the one refusal is the
      record that lacks nothing but its newline. */
  lemma TornWrite(codec: Codec, rs: seq<Record>, n: nat, family: Family)
    requires Lawful(codec) && WellFormed(rs, family) && n <= |Bytes(codec, rs)|
    ensures var k := Whole(codec, rs, n);
            var done := |Bytes(codec, rs[..k])|;
            && done <= n && (k < |rs| ==> n < |Bytes(codec, rs[..k + 1])|)
            && ReplaySpec(codec, Bytes(codec, rs)[..n], family) ==
                 if n == done then Ok(Replayed(rs[..k], false))
                 else if k < |rs| && n == done + |codec.encode(rs[k])| then Err(Malformed)
                 else Ok(Replayed(rs[..k], true))
  {
    var k := Whole(codec, rs, n);
    WholeIsLargest(codec, rs, n);
    WellFormedPrefix(rs, k, family);
    TornWriteAt(codec, rs, n, k, family);
  }

  lemma TornWriteAt(codec: Codec, rs: seq<Record>, n: nat, k: nat, family: Family)
    requires Lawful(codec) && k <= |rs| && WellFormed(rs[..k], family)
    requires |Bytes(codec, rs[..k])| <= n <= |Bytes(codec, rs)|
    requires k < |rs| ==> n < |Bytes(codec, rs[..k + 1])|
    ensures var done := |Bytes(codec, rs[..k])|;
            ReplaySpec(codec, Bytes(codec, rs)[..n], family) ==
              if n == done then Ok(Replayed(rs[..k], false))
              else if k < |rs| && n == done + |codec.encode(rs[k])| then Err(Malformed)
              else Ok(Replayed(rs[..k], true))
  {
    var whole, all := Bytes(codec, rs[..k]), Bytes(codec, rs);
    BytesEndsLine(codec, rs[..k]);
    AcceptEncoded(codec, rs[..k], whole, family);
    assert AcceptLines(codec, [], whole, 0, family) == Ok(rs[..k]);
    if k < |rs| {
      var line := codec.encode(rs[k]);
      NextLine(codec, rs, k);
      BytesPrefix(codec, rs, k + 1);
      CutShape(all, whole, line, n);
      EncodingFacts(codec, rs[k]);
      PrefixIsNotJson(codec, rs[k], n - |whole|);
      ReplayOfPieces(codec, whole, line[..n - |whole|], rs[..k], family);
    } else {
      assert rs[..k] == rs;
      assert all[..n] == whole + "";
      ReplayOfPieces(codec, whole, "", rs[..k], family);
    }
  }

  lemma NextLine(codec: Codec, rs: seq<Record>, k: nat)
    requires k < |rs|
    ensures Bytes(codec, rs[..k + 1]) == Bytes(codec, rs[..k]) + codec.encode(rs[k]) + "\n"
  {
    assert rs[..k + 1][..k] == rs[..k];
  }

  lemma CutShape(all: string, whole: string, line: string, n: nat)
    requires whole + line + "\n" <= all && |whole| <= n <= |whole| + |line|
    ensures all[..n] == whole + line[..n - |whole|]
  {
    assert all[..n] == (whole + line + "\n")[..n];
  }

  lemma EncodingFacts(codec: Codec, r: Record)
    requires Lawful(codec)
    ensures '\n' !in codec.encode(r) && codec.json(codec.encode(r)) && codec.encode(r) != ""
  {
  }

  lemma PrefixIsNotJson(codec: Codec, r: Record, k: int)
    requires Lawful(codec)
    ensures 0 <= k < |codec.encode(r)| ==> !codec.json(codec.encode(r)[..k])
    ensures codec.encode(r)[..|codec.encode(r)|] == codec.encode(r)
  {
  }

  /** Replay of complete lines followed by an unterminated tail. */
  lemma ReplayOfPieces(codec: Codec, whole: string, tail: string, rs: seq<Record>, family: Family)
    requires (|whole| > 0 ==> whole[|whole| - 1] == '\n') && '\n' !in tail
    requires AcceptLines(codec, [], whole, 0, family) == Ok(rs)
    ensures ReplaySpec(codec, whole + tail, family) ==
            if tail != "" && codec.json(tail) then Err(Malformed) else Ok(Replayed(rs, tail != ""))
  {
    var raw := whole + tail;
    forall k | |whole| <= k < |raw| ensures raw[k] != '\n' {
      assert raw[k] == tail[k - |whole|];
    }
    CompleteLengthIs(raw, |whole|);
    assert raw[..|whole|] == whole && raw[|whole|..] == tail;
  }

  lemma {:induction false} WellFormedPrefix(rs: seq<Record>, k: nat, family: Family)
    requires k <= |rs| && WellFormed(rs, family)
    ensures WellFormed(rs[..k], family)
    decreases |rs|
  {
    if k < |rs| {
      var before := rs[..|rs| - 1];
      assert before + [rs[|rs| - 1]] == rs;
      WellFormedExtends(before, rs[|rs| - 1], family);
      WellFormedPrefix(before, k, family);
      assert before[..k] == rs[..k];
    } else {
      assert rs[..k] == rs;
    }
  }

  // ---------------------------------------------------------------------------------
  // Append
  // ---------------------------------------------------------------------------------

  /** Why an append refuses, in the order the checks are made. */
  function Refusal(codec: Codec, raw: string, r: Record, family: Family): Option<Code> {
    if r.family != family then Some(WrongFamily)
    else if !r.Valid() then Some(Invalid)
    else match ReplaySpec(codec, raw, family)
      case Err(code) => Some(code)
      case Ok(prior) =>
        if prior.torn then Some(TornTail)
        else if HasId(prior.records, r.id) then Some(Duplicate)
        else if !Fits(prior.records, r) then Some(BrokenChain)
        else None
  }

  /** What a failed append leaves is read as a torn tail, unless nothing, all, or all but the
      newline of the line is left; no record before it is touched. */
  lemma FailedAppendReplays(codec: Codec, rs: seq<Record>, r: Record, n: nat, family: Family)
    requires Lawful(codec) && WellFormed(rs, family) && Refusal(codec, Bytes(codec, rs), r, family).None?
    requires n <= |codec.encode(r) + "\n"|
    ensures ReplaySpec(codec, Bytes(codec, rs) + (codec.encode(r) + "\n")[..n], family) ==
              if n == 0 then Ok(Replayed(rs, false))
              else if n == |codec.encode(r)| + 1 then Ok(Replayed(rs + [r], false))
              else if n == |codec.encode(r)| then Err(Malformed)
              else Ok(Replayed(rs, true))
  {
    hide ReplaySpec, Refusal;
    var more, line, before := rs + [r], codec.encode(r) + "\n", Bytes(codec, rs);
    AcceptedExtends(codec, rs, r, family);
    assert more[..|rs|] == rs && more[..|rs| + 1] == more;
    assert Bytes(codec, more) == before + line by { assert before + codec.encode(r) + "\n" == before + line; }
    assert (before + line)[..|before| + n] == before + line[..n];
    assert codec.encode(r) != "";
    TornWriteAt(codec, more, |before| + n, if n == |line| then |rs| + 1 else |rs|, family);
  }

  lemma AcceptedExtends(codec: Codec, rs: seq<Record>, r: Record, family: Family)
    requires Lawful(codec) && WellFormed(rs, family) && Refusal(codec, Bytes(codec, rs), r, family).None?
    ensures WellFormed(rs + [r], family)
  {
    hide WellFormed, Fits;
    ReplayDecidesWellFormed(codec, rs, family);
    WellFormedExtends(rs, r, family);
  }

  /** Append accepts a record exactly when replay accepts the ledger extended by it. */
  lemma AppendAgreesWithReplay(codec: Codec, rs: seq<Record>, r: Record, family: Family)
    requires Lawful(codec) && WellFormed(rs, family)
    ensures Refusal(codec, Bytes(codec, rs), r, family).None? <==>
            ReplaySpec(codec, Bytes(codec, rs) + codec.encode(r) + "\n", family) == Ok(Replayed(rs + [r], false))
    ensures Refusal(codec, Bytes(codec, rs), r, family).Some? ==>
            ReplaySpec(codec, Bytes(codec, rs) + codec.encode(r) + "\n", family).Err?
  {
    ReplayDecidesWellFormed(codec, rs, family);
    ReplayDecidesWellFormed(codec, rs + [r], family);
    WellFormedExtends(rs, r, family);
    assert (rs + [r])[..|rs|] == rs;
  }

  class LedgerFile {
    const codec: Codec
    const family: Family
    var raw: string

    constructor (codec: Codec, family: Family)
      ensures this.codec == codec && this.family == family && raw == ""
    {
      this.codec, this.family, raw := codec, family, "";
    }

    /** The scan for the record's identity. */
    method FindDuplicate(records: seq<Record>, id: Id) returns (found: bool)
      ensures found <==> HasId(records, id)
    {
      for i := 0 to |records|
        invariant forall k :: 0 <= k < i ==> records[k].id != id
      {
        if records[i].id == id { return true; }
      }
      return false;
    }

    /** The backward scan for the change's latest transition. */
    method LastOf(records: seq<Record>, change: ChangeId) returns (last: Option<nat>)
      requires forall i :: 0 <= i < |records| ==> records[i].ShapeValid()
      ensures last == LastRevision(records, change)
    {
      var index := |records|;
      assert records[..index] == records;
      while index > 0
        invariant 0 <= index <= |records|
        invariant LastRevision(records, change) == LastRevision(records[..index], change)
      {
        index := index - 1;
        var prior := records[index];
        assert records[..index + 1][..index] == records[..index];
        if prior.change == change && prior.resulting.Some? { return prior.resulting; }
      }
      return None;
    }

    /** AppendUnderLock. `fault` is a failing write or sync and the bytes of the line it leaves:
        none when the file could be cut back to its old size. */
    method Append(r: Record, fault: Option<nat>) returns (refusal: Option<Code>)
      requires fault.Some? ==> fault.value <= |codec.encode(r) + "\n"|
      modifies this
      ensures var why, line := Refusal(codec, old(raw), r, family), codec.encode(r) + "\n";
              && refusal == (if why.None? && fault.Some? then Some(WriteFailed) else why)
              && raw == old(raw) + (if why.Some? then "" else if fault.Some? then line[..fault.value] else line)
    {
      if r.family != family { return Some(WrongFamily); }
      if !r.Valid() { return Some(Invalid); }
      var replayed := Replay(codec, raw, family);
      if replayed.Err? { return Some(replayed.error); }
      if replayed.value.torn { return Some(TornTail); }
      var records := replayed.value.records;
      ReplayIsSound(codec, raw, family);
      assert forall i :: 0 <= i < |records| ==> records[i].ShapeValid();
      var repeated := FindDuplicate(records, r.id);
      if repeated { return Some(Duplicate); }
      if r.expected.Some? {
        var last := LastOf(records, r.change);
        if last.Some? && last != r.expected { return Some(BrokenChain); }
      }
      var line := codec.encode(r) + "\n";
      if fault.Some? {
        raw := raw + line[..fault.value];
        return Some(WriteFailed);
      }
      raw := raw + line;
      return None;
    }
  }

  // ---------------------------------------------------------------------------------
  // Events: one change's transitions ordered for the reports
  // ---------------------------------------------------------------------------------

  datatype EventRefusal = InvalidEvent | AmbiguousEvent | GapEvent

  datatype Event = Event(sequence: nat, from: nat, revision: nat, id: Id)

  /** Stable insertion sort by revision. */
  function Insert(e: Event, es: seq<Event>): seq<Event> {
    if es == [] then [e]
    else if e.revision < es[|es| - 1].revision then Insert(e, es[..|es| - 1]) + [es[|es| - 1]]
    else es + [e]
  }

  function StableSort(es: seq<Event>): seq<Event> {
    if es == [] then [] else Insert(es[|es| - 1], StableSort(es[..|es| - 1]))
  }

  lemma {:induction false} SortLeavesIncreasing(es: seq<Event>)
    requires forall k :: 0 < k < |es| ==> es[k - 1].revision < es[k].revision
    ensures StableSort(es) == es
  {
    if es != [] {
      var before := es[..|es| - 1];
      forall k | 0 < k < |before| ensures before[k - 1].revision < before[k].revision {
        assert es[k - 1].revision < es[k].revision;
      }
      SortLeavesIncreasing(before);
      assert before + [es[|es| - 1]] == es;
      if |es| > 1 {
        assert es[|es| - 2].revision < es[|es| - 1].revision;
      }
    }
  }

  /** In a well-formed ledger each change's transitions are one contiguous run of revisions. */
  lemma {:induction false} ContiguousRun(rs: seq<Record>, family: Family, c: ChangeId, k: nat)
    requires WellFormed(rs, family) && k < |Transitions(rs, c)|
    ensures var ts := Transitions(rs, c);
            && ts[0].expected.Some?
            && ts[k].expected == Some(ts[0].expected.value + k)
            && ts[k].resulting == Some(ts[0].expected.value + k + 1)
  {
    var ts := Transitions(rs, c);
    LastRevisionIsLastTransition(rs, c);
    assert ts[k] in rs;
    assert ts[k].ShapeValid();
    if k > 0 {
      ContiguousRun(rs, family, c, k - 1);
      assert ts[k - 1].resulting == ts[k - 1 + 1].expected;
    }
  }

  function EventOf(ts: seq<Record>, k: nat): Event
    requires k < |ts|
  {
    Event(k, ts[k].expected.GetOr(0), ts[k].resulting.GetOr(0), ts[k].id)
  }

  /** The transitions themselves, numbered in append order. */
  function EventsOf(ts: seq<Record>): (es: seq<Event>)
    ensures |es| == |ts| && forall k :: 0 <= k < |ts| ==> es[k] == EventOf(ts, k)
  {
    seq(|ts|, k requires 0 <= k < |ts| => EventOf(ts, k))
  }

  ghost predicate Seen(revisions: set<nat>, ids: set<Id>, es: seq<Event>) {
    && (forall v :: v in revisions <==> exists k :: 0 <= k < |es| && es[k].revision == v)
    && (forall id :: id in ids <==> exists k :: 0 <= k < |es| && es[k].id == id)
  }

  lemma SeenAppend(revisions: set<nat>, ids: set<Id>, es: seq<Event>, e: Event)
    requires Seen(revisions, ids, es)
    ensures Seen(revisions + {e.revision}, ids + {e.id}, es + [e])
  {
    var more := es + [e];
    assert more[|es|] == e;
    forall v ensures v in revisions + {e.revision} <==> exists k :: 0 <= k < |more| && more[k].revision == v {
      if k :| 0 <= k < |es| && es[k].revision == v {
        assert more[k].revision == v;
      }
    }
    forall id ensures id in ids + {e.id} <==> exists k :: 0 <= k < |more| && more[k].id == id {
      if k :| 0 <= k < |es| && es[k].id == id {
        assert more[k].id == id;
      }
    }
  }

  /** On a replayed history the next transition of the change is fresh and valid. */
  lemma NextTransition(rs: seq<Record>, i: nat, c: ChangeId)
    requires WellFormed(rs, History) && i < |rs| && rs[i].change == c
    ensures rs[i].Valid() && rs[i].family == History
    ensures rs[i].kind == FrictionKind <==> !rs[i].Transition()
    ensures rs[i].Transition() ==>
              forall e :: e in EventsOf(Transitions(rs[..i], c)) ==>
                e.revision != rs[i].resulting.value && e.id != rs[i].id
    ensures Transitions(rs[..i + 1], c) ==
            Transitions(rs[..i], c) + (if rs[i].Transition() then [rs[i]] else [])
  {
    assert rs[..i + 1] == rs[..i] + [rs[i]];
    TransitionsAppend(rs[..i], rs[i], c);
    WellFormedPrefix(rs, i + 1, History);
    if rs[i].Transition() {
      var ts, more := Transitions(rs[..i], c), Transitions(rs[..i + 1], c);
      LastRevisionIsLastTransition(rs[..i], c);
      forall k | 0 <= k < |ts|
        ensures EventOf(ts, k).revision != rs[i].resulting.value && EventOf(ts, k).id != rs[i].id
      {
        ContiguousRun(rs[..i + 1], History, c, k);
        ContiguousRun(rs[..i + 1], History, c, |ts|);
        assert more[k] == ts[k] && more[|ts|] == rs[i];
        assert ts[k] in rs[..i];
      }
    }
  }

  /** The first half of Truth.events: one pass collecting the change's transitions. On a
      replayed history the validity and duplicate checks never fire. */
  method CollectEvents(rs: seq<Record>, change: ChangeId)
    returns (result: Result<seq<Event>, EventRefusal>)
    ensures WellFormed(rs, History) ==> result == Ok(EventsOf(Transitions(rs, change)))
  {
    var events: seq<Event>, revisions: set<nat>, ids: set<Id> := [], {}, {};
    for i := 0 to |rs|
      invariant WellFormed(rs, History) ==> events == EventsOf(Transitions(rs[..i], change))
      invariant Seen(revisions, ids, events)
    {
      var item := rs[i];
      CollectStep(rs, i, change);
      if item.change != change || item.kind == FrictionKind { continue; }
      if item.family != History || item.expected.None? || item.resulting.None? ||
         item.resulting.value != item.expected.value + 1 {
        return Err(InvalidEvent);
      }
      if item.resulting.value in revisions || item.id in ids { return Err(AmbiguousEvent); }
      if !item.Valid() { return Err(InvalidEvent); }
      var event := Event(|events|, item.expected.value, item.resulting.value, item.id);
      SeenAppend(revisions, ids, events, event);
      revisions, ids := revisions + {item.resulting.value}, ids + {item.id};
      events := events + [event];
    }
    assert rs[..|rs|] == rs;
    return Ok(events);
  }

  lemma CollectStep(rs: seq<Record>, i: nat, c: ChangeId)
    requires i < |rs|
    ensures WellFormed(rs, History) ==>
              var item, before, after :=
                rs[i], EventsOf(Transitions(rs[..i], c)), EventsOf(Transitions(rs[..i + 1], c));
              if item.change != c || item.kind == FrictionKind then after == before
              else
                && item.Valid() && item.family == History && item.Transition()
                && (forall e :: e in before ==> e.revision != item.resulting.value && e.id != item.id)
                && after == before + [Event(|before|, item.expected.value, item.resulting.value, item.id)]
  {
    assert rs[..i + 1] == rs[..i] + [rs[i]];
    TransitionsAppend(rs[..i], rs[i], c);
    if WellFormed(rs, History) && rs[i].change == c {
      NextTransition(rs, i, c);
    }
  }

  /** Truth.events: the sort moves nothing on a replayed history, so the result is the
      change's transitions in append order; the one refusal left is a run that does not
      start at revision 0. */
  method Events(rs: seq<Record>, change: ChangeId)
    returns (result: Result<seq<Event>, EventRefusal>)
    ensures WellFormed(rs, History) ==>
              var ts := Transitions(rs, change);
              result == if ts == [] || ts[0].expected == Some(0) then Ok(EventsOf(ts)) else Err(GapEvent)
  {
    var collected := CollectEvents(rs, change);
    if collected.Err? { return collected; }
    EventsIncrease(rs, change);
    if WellFormed(rs, History) { SortLeavesIncreasing(collected.value); }
    var events := StableSort(collected.value);
    for index := 0 to |events|
      invariant index > 0 ==> events[0].from == 0
    {
      var want := if index > 0 then events[index - 1].revision else 0;
      if events[index].from != want { return Err(GapEvent); }
    }
    return Ok(events);
  }

  lemma EventsIncrease(rs: seq<Record>, c: ChangeId)
    ensures WellFormed(rs, History) ==>
              var ts := Transitions(rs, c);
              var es := EventsOf(ts);
              && (ts != [] ==> ts[0].expected.Some?)
              && (forall k :: 0 < k < |es| ==> es[k].from == es[k - 1].revision && es[k].revision == es[k].from + 1)
  {
    if WellFormed(rs, History) {
      var ts := Transitions(rs, c);
      var es := EventsOf(ts);
      if ts != [] {
        ContiguousRun(rs, History, c, 0);
      }
      forall k | 0 < k < |es|
        ensures es[k].from == es[k - 1].revision && es[k].revision == es[k].from + 1
      {
        ContiguousRun(rs, History, c, k);
        ContiguousRun(rs, History, c, k - 1);
      }
    }
  }

  datatype Verdict = Agrees | HistoryAhead | Disagrees

  /** Truth.inconsistency: history judged against the state revision. */
  function Inconsistency(events: seq<Event>, revision: nat): Verdict {
    if events == [] then (if revision == 0 then Agrees else Disagrees)
    else
      var last := events[|events| - 1];
      if last.revision == revision then Agrees
      else if last.from == revision then HistoryAhead
      else Disagrees
  }
}
