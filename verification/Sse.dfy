/**
 * The incremental SSE splitter: a fast path over the chunk, a carry buffer for
 * what straddles reads, and a ceiling on an unterminated frame.
 *
 * Whether bytes are valid UTF-8 is the parameter `utf8`.
 */
module Sse {
  import opened Wrappers
  import opened Hashing

  const MAX_FRAME_BYTES: nat := 1024 * 1024

  const LF: byte := 10
  const CR: byte := 13
  const SPACE: byte := 32
  const COLON: byte := 58

  const EVENT: Bytes := Ascii("event")
  const DATA: Bytes := Ascii("data")

  datatype Frame = Frame(event: Option<Bytes>, data: Bytes)

  datatype SseError = FrameTooLarge

  type Utf8 = Bytes -> bool

  // ----- Separators -----

  /** Length of the separator that starts at `i`, 0 if none does. */
  function SeparatorAt(s: Bytes, i: nat): nat
    requires i < |s|
  {
    if s[i] == LF && i + 1 < |s| && s[i + 1] == LF then 2
    else if s[i] == CR && i + 3 < |s| && s[i + 1] == LF && s[i + 2] == CR && s[i + 3] == LF then 4
    else 0
  }

  /** The first separator: where it is and how long. */
  ghost predicate FirstIs(s: Bytes, r: Option<(nat, nat)>) {
    match r
    case None => forall i :: 0 <= i < |s| ==> SeparatorAt(s, i) == 0
    case Some((at, len)) =>
      at < |s| && SeparatorAt(s, at) == len > 0 && forall i :: 0 <= i < at ==> SeparatorAt(s, i) == 0
  }

  function FirstFrom(s: Bytes, i: nat): (r: Option<(nat, nat)>)
    requires i <= |s|
    requires forall k :: 0 <= k < i ==> SeparatorAt(s, k) == 0
    ensures FirstIs(s, r)
    ensures r.Some? ==> r.value.0 + r.value.1 <= |s|
    decreases |s| - i
  {
    if i == |s| then None
    else if SeparatorAt(s, i) > 0 then Some((i, SeparatorAt(s, i)))
    else FirstFrom(s, i + 1)
  }

  function First(s: Bytes): (r: Option<(nat, nat)>)
    ensures FirstIs(s, r)
    ensures r.Some? ==> 0 < r.value.1 && r.value.0 + r.value.1 <= |s|
  {
    FirstFrom(s, 0)
  }

  lemma FirstIsUnique(s: Bytes, r: Option<(nat, nat)>)
    requires FirstIs(s, r)
    ensures r == First(s)
  {
    hide SeparatorAt, First;
    var f := First(s);
    if r.Some? && f.Some? {
      assert r.value.0 == f.value.0;
    }
  }

  /** Two line feeds, or two carriage returns each with its line feed. */
  ghost predicate CutsAt(s: Bytes, i: nat, len: nat) {
    || (len == 2 && i + 2 <= |s| && s[i..i + 2] == [10, 10])
    || (len == 4 && i + 4 <= |s| && s[i..i + 4] == [13, 10, 13, 10])
  }

  lemma SeparatorIff(s: Bytes, i: nat, len: nat)
    requires i < |s| && len > 0
    ensures SeparatorAt(s, i) == len <==> CutsAt(s, i, len)
  {
    if i + 2 <= |s| {
      assert s[i..i + 2][0] == s[i] && s[i..i + 2][1] == s[i + 1];
      assert s[i] == 10 && s[i + 1] == 10 ==> s[i..i + 2] == [10, 10];
    }
    if i + 4 <= |s| {
      var t := s[i..i + 4];
      assert t[0] == s[i] && t[1] == s[i + 1] && t[2] == s[i + 2] && t[3] == s[i + 3];
      assert s[i] == 13 && s[i + 1] == 10 && s[i + 2] == 13 && s[i + 3] == 10 ==> t == [13, 10, 13, 10];
    }
  }

  /** The first separator, in terms of the bytes it is made of. */
  lemma FirstCuts(s: Bytes)
    ensures First(s).None? <==> forall i: nat, len: nat :: !CutsAt(s, i, len)
    ensures First(s).Some? ==>
              && CutsAt(s, First(s).value.0, First(s).value.1)
              && forall i: nat, len: nat :: i < First(s).value.0 ==> !CutsAt(s, i, len)
  {
    hide CutsAt, SeparatorAt, First;
    var r := First(s);
    forall i: nat, len: nat | CutsAt(s, i, len)
      ensures r.Some? && i >= r.value.0
    {
      CutsWithin(s, i, len);
      SeparatorIff(s, i, len);
      assert SeparatorAt(s, i) != 0;
    }
    if r.Some? {
      SeparatorIff(s, r.value.0, r.value.1);
    }
  }

  lemma CutsWithin(s: Bytes, i: nat, len: nat)
    requires CutsAt(s, i, len)
    ensures i < |s| && len > 0
  {
  }

  method FindSeparator(buf: Bytes) returns (r: Option<(nat, nat)>)
    ensures r == First(buf)
    ensures r.None? <==> forall i: nat, len: nat :: !CutsAt(buf, i, len)
    ensures r.Some? ==> CutsAt(buf, r.value.0, r.value.1) && forall i: nat, len: nat :: i < r.value.0 ==> !CutsAt(buf, i, len)
  {
    hide CutsAt;
    FirstCuts(buf);
    var i := 0;
    while i < |buf|
      invariant i <= |buf| && forall k :: 0 <= k < i ==> SeparatorAt(buf, k) == 0
    {
      if buf[i] == LF && i + 1 < |buf| && buf[i + 1] == LF {
        r := Some((i, 2));
        FirstIsUnique(buf, r);
        return;
      } else if buf[i] == CR && i + 4 <= |buf| && buf[i + 1..i + 4] == [LF, CR, LF] {
        r := Some((i, 4));
        assert buf[i + 1..i + 4][0] == LF && buf[i + 1..i + 4][1] == CR && buf[i + 1..i + 4][2] == LF;
        FirstIsUnique(buf, r);
        return;
      }
      assert i + 4 <= |buf| && buf[i + 1] == LF && buf[i + 2] == CR && buf[i + 3] == LF ==> buf[i + 1..i + 4] == [LF, CR, LF];
      i := i + 1;
    }
    r := None;
    FirstIsUnique(buf, r);
  }

  /** The frame bodies of a stream, and what follows the last separator. */
  function Split(s: Bytes): (r: (seq<Bytes>, Bytes))
    ensures First(r.1) == None
    ensures |r.1| <= |s|
    decreases |s|
  {
    match First(s)
    case None => ([], s)
    case Some((at, len)) =>
      var (bodies, tail) := Split(s[at + len..]);
      ([s[..at]] + bodies, tail)
  }

  /** A separator once complete stays the first one, whatever comes after. */
  lemma FirstStable(a: Bytes, b: Bytes)
    requires First(a).Some?
    ensures First(a + b) == First(a)
  {
    var (at, len) := First(a).value;
    forall i | 0 <= i < at
      ensures SeparatorAt(a + b, i) == 0
    {
      assert SeparatorAt(a, i) == 0;
    }
    FirstIsUnique(a + b, First(a));
  }

  /** Splitting may stop anywhere and go on from the tail. */
  lemma {:induction false} SplitResumes(a: Bytes, b: Bytes)
    ensures Split(a + b) == (Split(a).0 + Split(Split(a).1 + b).0, Split(Split(a).1 + b).1)
    decreases |a|
  {
    hide First, Split;
    if First(a).None? {
      SplitWhole(a);
      assert [] + Split(a + b).0 == Split(a + b).0;
    } else {
      var (at, len) := First(a).value;
      FirstStable(a, b);
      SplitCut(a, at, len);
      SplitCut(a + b, at, len);
      assert (a + b)[at + len..] == a[at + len..] + b;
      assert (a + b)[..at] == a[..at];
      SplitResumes(a[at + len..], b);
      ConsAppends(a[..at], Split(a[at + len..]).0, Split(Split(a[at + len..]).1 + b).0);
    }
  }

  lemma SplitWhole(s: Bytes)
    requires First(s).None?
    ensures Split(s) == ([], s)
  {
  }

  lemma SplitCut(s: Bytes, at: nat, len: nat)
    requires First(s) == Some((at, len))
    ensures Split(s) == ([s[..at]] + Split(s[at + len..]).0, Split(s[at + len..]).1)
  {
    hide First;
  }

  lemma ConsAppends<T>(x: T, a: seq<T>, b: seq<T>)
    ensures [x] + (a + b) == ([x] + a) + b
  {
  }

  // ----- One frame -----

  /** The body cut at each line feed. */
  function Lines(body: Bytes): (r: seq<Bytes>)
    ensures |r| > 0
  {
    if body == [] then [[]]
    else
      var rest := Lines(body[1..]);
      if body[0] == LF then [[]] + rest else [[body[0]] + rest[0]] + rest[1..]
  }

  function Chomp(line: Bytes): Bytes {
    if line != [] && line[|line| - 1] == CR then line[..|line| - 1] else line
  }

  function Position(line: Bytes, b: byte): (r: nat)
    ensures r <= |line| && b !in line[..r] && (r < |line| ==> line[r] == b)
  {
    if line == [] || line[0] == b then 0 else 1 + Position(line[1..], b)
  }

  /** Name and value of a line, the value without its one optional leading
      space.  Empty lines, comments and lines without a colon have neither. */
  function Field(raw: Bytes): Option<(Bytes, Bytes)> {
    var line := Chomp(raw);
    var colon := Position(line, COLON);
    if colon == 0 || colon == |line| then None
    else
      var value := line[colon + 1..];
      Some((line[..colon], if value != [] && value[0] == SPACE then value[1..] else value))
  }

  predicate Names(line: Bytes, name: Bytes) {
    Field(line).Some? && Field(line).value.0 == name
  }

  /** The value of the first line of this name. */
  function FirstValue(lines: seq<Bytes>, name: Bytes): Option<Bytes> {
    if lines == [] then None
    else if Names(lines[0], name) then Some(Field(lines[0]).value.1)
    else FirstValue(lines[1..], name)
  }

  /** The value of the last line of this name. */
  function LastValue(lines: seq<Bytes>, name: Bytes): Option<Bytes> {
    if lines == [] then None
    else if Names(lines[|lines| - 1], name) then Some(Field(lines[|lines| - 1]).value.1)
    else LastValue(lines[..|lines| - 1], name)
  }

  /** The first `data` wins; the last `event` wins, and is no event at all if it
      is not text.  Without `data` there is no frame. */
  function Parsed(utf8: Utf8, body: Bytes): Option<Frame> {
    match FirstValue(Lines(body), DATA)
    case None => None
    case Some(data) => Some(Frame(Text(utf8, LastValue(Lines(body), EVENT)), data))
  }

  function Text(utf8: Utf8, value: Option<Bytes>): Option<Bytes> {
    if value.Some? && utf8(value.value) then value else None
  }

  lemma {:induction false} FirstValueGrows(lines: seq<Bytes>, line: Bytes, name: Bytes)
    ensures FirstValue(lines + [line], name) ==
            if FirstValue(lines, name).Some? then FirstValue(lines, name)
            else if Names(line, name) then Some(Field(line).value.1) else None
  {
    hide Field;
    if lines != [] {
      assert (lines + [line])[1..] == lines[1..] + [line];
      FirstValueGrows(lines[1..], line, name);
    }
  }

  lemma LastValueGrows(lines: seq<Bytes>, line: Bytes, name: Bytes)
    ensures LastValue(lines + [line], name) == if Names(line, name) then Some(Field(line).value.1) else LastValue(lines, name)
  {
    assert (lines + [line])[..|lines|] == lines;
  }

  lemma FieldNamesDiffer()
    ensures EVENT != DATA
  {
    assert |EVENT| != |DATA|;
  }

  method ParseLine(raw: Bytes) returns (field: Option<(Bytes, Bytes)>)
    ensures field == Field(raw)
  {
    var line := Chomp(raw);
    if line == [] || line[0] == COLON {
      return None;
    }
    var colon := Position(line, COLON);
    if colon == |line| {
      return None;
    }
    var name, value := line[..colon], line[colon + 1..];
    if value != [] && value[0] == SPACE {
      value := value[1..];
    }
    field := Some((name, value));
  }

  method Parse(utf8: Utf8, body: Bytes) returns (r: Option<Frame>)
    ensures r == Parsed(utf8, body)
  {
    hide Field, Lines;
    FieldNamesDiffer();
    var lines := Lines(body);
    var event: Option<Bytes>, data: Option<Bytes> := None, None;
    for n := 0 to |lines|
      invariant data == FirstValue(lines[..n], DATA)
      invariant event == Text(utf8, LastValue(lines[..n], EVENT))
    {
      FirstValueGrows(lines[..n], lines[n], DATA);
      LastValueGrows(lines[..n], lines[n], EVENT);
      assert lines[..n] + [lines[n]] == lines[..n + 1];
      var field := ParseLine(lines[n]);
      if field.None? {
        continue;
      }
      var (name, value) := field.value;
      if name == EVENT {
        event := if utf8(value) then Some(value) else None;
      } else if name == DATA && data.None? {
        data := Some(value);
      }
    }
    assert lines[..|lines|] == lines;
    r := if data.None? then None else Some(Frame(event, data.value));
  }

  // ----- The scanner -----

  function Found(r: Option<Frame>): seq<Frame> {
    if r.Some? then [r.value] else []
  }

  /** The frames of complete bodies; the ones without data are not surfaced. */
  function Frames(utf8: Utf8, bodies: seq<Bytes>): seq<Frame> {
    if bodies == [] then [] else Found(Parsed(utf8, bodies[0])) + Frames(utf8, bodies[1..])
  }

  /** The frames of a whole stream: an unterminated last one counts. */
  function StreamFrames(utf8: Utf8, s: Bytes): seq<Frame> {
    Frames(utf8, Split(s).0) + Found(Parsed(utf8, Split(s).1))
  }

  /** One feed, by either path: outcome, frames, carry after.  The frames are those of carry
      and chunk taken as one buffer, and its tail is carried on; a tail past the
      ceiling is dropped. */
  function Fed(utf8: Utf8, carry: Bytes, chunk: Bytes): (bool, seq<Frame>, Bytes) {
    var (bodies, tail) := Split(carry + chunk);
    if |tail| > MAX_FRAME_BYTES then (false, Frames(utf8, bodies), []) else (true, Frames(utf8, bodies), tail)
  }

  class FrameScanner {
    var carry: Bytes

    ghost predicate Valid()
      reads this
    {
      First(carry).None? && |carry| <= MAX_FRAME_BYTES
    }

    constructor ()
      ensures Valid() && carry == []
    {
      carry := [];
    }

    method Feed(utf8: Utf8, chunk: Bytes) returns (r: Result<(), SseError>, frames: seq<Frame>)
      modifies this
      ensures Valid()
      ensures (r.Ok?, frames, carry) == Fed(utf8, old(carry), chunk)
    {
      hide First, Split, Parsed;
      NoneInNothing();
      if carry == [] {
        assert carry + chunk == chunk;
        var rest;
        frames, rest := Scan(utf8, chunk);
        assert carry + rest == rest;
        r := PushCarry(rest);
        return;
      }
      carry := carry + chunk;
      frames := DrainCarry(utf8);
      if |carry| > MAX_FRAME_BYTES {
        carry := [];
        return Err(FrameTooLarge), frames;
      }
      r := Ok(());
    }

    /** The slow path: the join is scanned as one buffer, since a separator can
        straddle it too. */
    method DrainCarry(utf8: Utf8) returns (frames: seq<Frame>)
      modifies this
      ensures frames == Frames(utf8, Split(old(carry)).0) && carry == Split(old(carry)).1
    {
      hide First, Split, Parsed, Frames, FirstIs;
      var consumed := 0;
      frames := [];
      assert carry[consumed..] == carry;
      var found := FindSeparator(carry);
      while found.Some?
        invariant consumed <= |carry| && found == First(carry[consumed..])
        invariant carry == old(carry)
        invariant Split(carry).1 == Split(carry[consumed..]).1
        invariant Frames(utf8, Split(carry).0) == frames + Frames(utf8, Split(carry[consumed..]).0)
        decreases |carry| - consumed
      {
        var (at, len) := found.value;
        FramesCut(utf8, carry[consumed..], at, len, frames);
        assert carry[consumed..][at + len..] == carry[consumed + at + len..];
        assert carry[consumed..][..at] == carry[consumed..consumed + at];
        var frame := Parse(utf8, carry[consumed..consumed + at]);
        if frame.Some? {
          frames := frames + [frame.value];
        }
        consumed := consumed + (at + len);
        found := FindSeparator(carry[consumed..]);
      }
      FramesWhole(utf8, carry[consumed..]);
      carry := carry[consumed..];
    }

    /** The fast path: frames straight out of the chunk. */
    method Scan(utf8: Utf8, chunk: Bytes) returns (frames: seq<Frame>, rest: Bytes)
      ensures frames == Frames(utf8, Split(chunk).0) && rest == Split(chunk).1
    {
      hide First, Split, Parsed;
      rest, frames := chunk, [];
      var found := FindSeparator(rest);
      while found.Some?
        invariant found == First(rest)
        invariant Split(chunk).1 == Split(rest).1
        invariant Frames(utf8, Split(chunk).0) == frames + Frames(utf8, Split(rest).0)
        decreases |rest|
      {
        var (at, len) := found.value;
        FramesCut(utf8, rest, at, len, frames);
        var frame := Parse(utf8, rest[..at]);
        if frame.Some? {
          frames := frames + [frame.value];
        }
        rest := rest[at + len..];
        found := FindSeparator(rest);
      }
      FramesWhole(utf8, rest);
    }

    method PushCarry(bytes: Bytes) returns (r: Result<(), SseError>)
      modifies this
      ensures r.Err? <==> |old(carry) + bytes| > MAX_FRAME_BYTES
      ensures carry == if r.Ok? then old(carry) + bytes else []
    {
      if |carry| + |bytes| > MAX_FRAME_BYTES {
        carry := [];
        return Err(FrameTooLarge);
      }
      carry := carry + bytes;
      r := Ok(());
    }

    /** What is left at end of stream is a frame of its own. */
    method Finish(utf8: Utf8) returns (frames: seq<Frame>)
      modifies this
      ensures carry == [] && frames == Found(Parsed(utf8, old(carry)))
    {
      var carried := carry;
      carry := [];
      var frame := Parse(utf8, carried);
      frames := Found(frame);
    }
  }

  lemma NoneInNothing()
    ensures First([]) == None
  {
  }

  lemma FramesWhole(utf8: Utf8, s: Bytes)
    requires First(s).None?
    ensures Frames(utf8, Split(s).0) == [] && Split(s).1 == s
  {
    SplitWhole(s);
  }

  lemma FramesCut(utf8: Utf8, s: Bytes, at: nat, len: nat, before: seq<Frame>)
    requires First(s) == Some((at, len))
    ensures before + Frames(utf8, Split(s).0) ==
            (before + Found(Parsed(utf8, s[..at]))) + Frames(utf8, Split(s[at + len..]).0)
    ensures Split(s).1 == Split(s[at + len..]).1
    ensures Found(Parsed(utf8, s[..at])) == [] ==> before + Found(Parsed(utf8, s[..at])) == before
  {
    hide Parsed, First, Split;
    SplitCut(s, at, len);
    assert ([s[..at]] + Split(s[at + len..]).0)[1..] == Split(s[at + len..]).0;
  }

  // ----- However the stream is cut -----

  function Join(chunks: seq<Bytes>): Bytes {
    if chunks == [] then [] else Join(chunks[..|chunks| - 1]) + chunks[|chunks| - 1]
  }

  /** Feeding chunk after chunk, for as long as none is refused. */
  function FedAll(utf8: Utf8, chunks: seq<Bytes>): (r: (bool, seq<Frame>, Bytes)) {
    if chunks == [] then (true, [], [])
    else
      var (ok, frames, carry) := FedAll(utf8, chunks[..|chunks| - 1]);
      var (ok', frames', carry') := Fed(utf8, carry, chunks[|chunks| - 1]);
      (ok && ok', frames + frames', carry')
  }

  lemma {:induction false} FramesAppend(utf8: Utf8, a: seq<Bytes>, b: seq<Bytes>)
    ensures Frames(utf8, a + b) == Frames(utf8, a) + Frames(utf8, b)
  {
    hide Parsed;
    if a == [] {
      assert a + b == b;
    } else {
      assert (a + b)[1..] == a[1..] + b;
      FramesAppend(utf8, a[1..], b);
    }
  }

  /** As long as no feed is refused, what has come out and what is carried are
      what one split of everything fed so far would give. */
  lemma {:induction false} FedSoFar(utf8: Utf8, chunks: seq<Bytes>)
    requires FedAll(utf8, chunks).0
    ensures FedAll(utf8, chunks).1 == Frames(utf8, Split(Join(chunks)).0)
    ensures FedAll(utf8, chunks).2 == Split(Join(chunks)).1
  {
    hide First, Split, Parsed;
    if chunks == [] {
      NoneInNothing();
      SplitWhole([]);
    } else {
      var before, chunk := chunks[..|chunks| - 1], chunks[|chunks| - 1];
      FedSoFar(utf8, before);
      var s := Join(before);
      SplitResumes(s, chunk);
      FramesAppend(utf8, Split(s).0, Split(Split(s).1 + chunk).0);
    }
  }

  /** Chunking does not matter: for every cut of a stream into chunks none of
      which is refused, the frames of the feeds and of the finish are the frames
      of the uncut stream. */
  lemma ChunkingDoesNotMatter(utf8: Utf8, chunks: seq<Bytes>)
    requires FedAll(utf8, chunks).0
    ensures FedAll(utf8, chunks).1 + Found(Parsed(utf8, FedAll(utf8, chunks).2)) == StreamFrames(utf8, Join(chunks))
  {
    FedSoFar(utf8, chunks);
  }

  /** A cut goes through exactly if at no boundary more than the ceiling, a mebibyte,
      is left unterminated. */
  lemma {:induction false} NoneRefusedIff(utf8: Utf8, chunks: seq<Bytes>)
    ensures FedAll(utf8, chunks).0 <==>
            forall k :: 0 < k <= |chunks| ==> |Split(Join(chunks[..k])).1| <= 1_048_576
  {
    hide First, Split, Parsed, Fed;
    if chunks != [] {
      var n := |chunks| - 1;
      var before := chunks[..n];
      NoneRefusedIff(utf8, before);
      assert chunks[..n + 1] == chunks;
      assert forall k :: 0 < k <= n ==> before[..k] == chunks[..k];
      LastFeed(utf8, chunks);
    }
  }

  lemma LastFeed(utf8: Utf8, chunks: seq<Bytes>)
    requires chunks != []
    ensures FedAll(utf8, chunks).0 <==>
            FedAll(utf8, chunks[..|chunks| - 1]).0 && |Split(Join(chunks)).1| <= MAX_FRAME_BYTES
  {
    hide First, Split, Parsed, Frames;
    var before, chunk := chunks[..|chunks| - 1], chunks[|chunks| - 1];
    if FedAll(utf8, before).0 {
      FedSoFar(utf8, before);
      SplitResumes(Join(before), chunk);
    }
  }

  /** A stream whose frames are a separator's length below the ceiling goes
      through however it is cut. */
  lemma SmallFramesNeverRefused(utf8: Utf8, chunks: seq<Bytes>)
    requires forall body | body in Split(Join(chunks)).0 + [Split(Join(chunks)).1] :: |body| + 3 <= MAX_FRAME_BYTES
    ensures FedAll(utf8, chunks).0
  {
    hide First, Split, Parsed;
    forall k | 0 < k <= |chunks|
      ensures |Split(Join(chunks[..k])).1| <= MAX_FRAME_BYTES
    {
      var rest := JoinPrefix(chunks, k);
      TailBounded(Join(chunks[..k]), rest);
    }
    NoneRefusedIff(utf8, chunks);
  }

  lemma {:induction false} JoinPrefix(chunks: seq<Bytes>, k: nat) returns (rest: Bytes)
    requires k <= |chunks|
    ensures Join(chunks) == Join(chunks[..k]) + rest
    decreases |chunks|
  {
    if k == |chunks| {
      rest := [];
      assert chunks[..k] == chunks;
    } else {
      var n := |chunks| - 1;
      rest := JoinPrefix(chunks[..n], k);
      assert chunks[..n][..k] == chunks[..k];
      assert Join(chunks) == Join(chunks[..k]) + (rest + chunks[n]);
      rest := rest + chunks[n];
    }
  }

  lemma SeparatorsLocal(a: Bytes, b: Bytes)
    ensures forall i | 0 <= i < |a| && i + SeparatorAt(a + b, i) <= |a| :: SeparatorAt(a, i) == SeparatorAt(a + b, i)
  {
  }

  /** What is unterminated so far is the start of one body of the whole stream,
      with at most three bytes of its separator. */
  lemma TailBounded(a: Bytes, b: Bytes)
    requires forall body | body in Split(a + b).0 + [Split(a + b).1] :: |body| + 3 <= MAX_FRAME_BYTES
    ensures |Split(a).1| <= MAX_FRAME_BYTES
  {
    hide Split, First;
    var t := Split(a).1;
    SplitResumes(a, b);
    SeparatorsLocal(t, b);
    if First(t + b).None? {
      SplitWhole(t + b);
      assert t + b in Split(a + b).0 + [Split(a + b).1];
    } else {
      var (at, len) := First(t + b).value;
      SplitCut(t + b, at, len);
      var body := (t + b)[..at];
      assert Split(t + b).0[0] == body;
      assert body in Split(t + b).0;
      assert body in Split(a + b).0 + [Split(a + b).1];
    }
  }

  // ----- Lines, fields and frames, without the code's own recursion -----

  function JoinLines(lines: seq<Bytes>): Bytes
    requires lines != []
  {
    if |lines| == 1 then lines[0] else lines[0] + [10] + JoinLines(lines[1..])
  }

  ghost predicate NoneInside(lines: seq<Bytes>, b: byte) {
    forall l | l in lines :: b !in l
  }

  /** The lines of a body are the one list without line feeds that makes the body when
      joined by them. */
  lemma LinesIff(body: Bytes, lines: seq<Bytes>)
    ensures Lines(body) == lines <==> lines != [] && JoinLines(lines) == body && NoneInside(lines, 10)
  {
    LinesJoin(body);
    if lines != [] && JoinLines(lines) == body && NoneInside(lines, 10) {
      LinesOfJoined(lines);
    }
  }

  lemma {:induction false} LinesJoin(body: Bytes)
    ensures JoinLines(Lines(body)) == body && NoneInside(Lines(body), 10)
  {
    if body != [] {
      LinesJoin(body[1..]);
      var rest := Lines(body[1..]);
      assert body == [body[0]] + body[1..];
      assert rest == [rest[0]] + rest[1..];
      if body[0] == LF {
        assert ([[]] + rest)[1..] == rest;
        assert JoinLines([[]] + rest) == [] + [10] + JoinLines(rest);
      } else if |rest| > 1 {
        var lines := [[body[0]] + rest[0]] + rest[1..];
        assert lines[1..] == rest[1..];
        assert JoinLines(lines) == [body[0]] + (rest[0] + [10] + JoinLines(rest[1..]));
      }
    }
  }

  lemma {:induction false} LinesOfJoined(lines: seq<Bytes>)
    requires lines != [] && NoneInside(lines, 10)
    ensures Lines(JoinLines(lines)) == lines
  {
    if |lines| == 1 {
      LinesOfOne(lines[0]);
    } else {
      LinesOfJoined(lines[1..]);
      LinesOfMore(lines[0], JoinLines(lines[1..]));
    }
  }

  /** `line` is `raw` without one carriage return at its end, if it has one. */
  predicate Chomped(raw: Bytes, line: Bytes) {
    raw == line + [13] || (raw == line && (raw != [] ==> raw[|raw| - 1] != 13))
  }

  /** The line says `name`, a colon, and `value` behind one optional space. */
  predicate Says(line: Bytes, name: Bytes, value: Bytes) {
    && name != [] && 58 !in name
    && (line == name + [58, 32] + value || (line == name + [58] + value && (value != [] ==> value[0] != 32)))
  }

  lemma ChompedIs(raw: Bytes, line: Bytes)
    ensures Chomp(raw) == line <==> Chomped(raw, line)
  {
    if Chomp(raw) == line && raw != [] && raw[|raw| - 1] == CR {
      assert raw == line + [13];
    }
    if raw == line + [13] {
      assert raw[..|raw| - 1] == line;
    }
  }

  /** What a line's field is, in terms of the bytes of the line. */
  lemma FieldIff(raw: Bytes, name: Bytes, value: Bytes)
    ensures Field(raw) == Some((name, value)) <==> exists line :: Chomped(raw, line) && Says(line, name, value)
  {
    var line := Chomp(raw);
    ChompedIs(raw, line);
    if Field(raw) == Some((name, value)) {
      SaysItsField(raw, name, value);
    }
    if x :| Chomped(raw, x) && Says(x, name, value) {
      ChompedIs(raw, x);
      SaidIsField(raw, name, value);
    }
  }

  lemma SaysItsField(raw: Bytes, name: Bytes, value: Bytes)
    requires Field(raw) == Some((name, value))
    ensures Says(Chomp(raw), name, value)
  {
    var line := Chomp(raw);
    var colon := Position(line, COLON);
    var after := line[colon + 1..];
    assert line == name + [58] + after;
    if after != [] && after[0] == SPACE {
      assert after == [32] + value;
      assert line == name + [58, 32] + value;
    }
  }

  lemma SaidIsField(raw: Bytes, name: Bytes, value: Bytes)
    requires Says(Chomp(raw), name, value)
    ensures Field(raw) == Some((name, value))
  {
    var line := Chomp(raw);
    var after := if line == name + [58, 32] + value then [32] + value else value;
    assert line == name + [COLON] + after;
    PositionOf(name, COLON, after);
    assert line[|name| + 1..] == after && line[..|name|] == name;
  }

  predicate FirstOf(lines: seq<Bytes>, name: Bytes, i: nat) {
    i < |lines| && Names(lines[i], name) && forall j :: 0 <= j < i ==> !Names(lines[j], name)
  }

  predicate LastOf(lines: seq<Bytes>, name: Bytes, i: nat) {
    i < |lines| && Names(lines[i], name) && forall j :: i < j < |lines| ==> !Names(lines[j], name)
  }

  lemma {:induction false} FirstValueIs(lines: seq<Bytes>, name: Bytes)
    ensures FirstValue(lines, name).None? <==> forall i :: 0 <= i < |lines| ==> !Names(lines[i], name)
    ensures forall i: nat | FirstOf(lines, name, i) :: FirstValue(lines, name) == Some(Field(lines[i]).value.1)
    ensures FirstValue(lines, name).Some? ==> exists i: nat :: FirstOf(lines, name, i)
  {
    hide Field;
    if lines != [] {
      var t := lines[1..];
      FirstValueIs(t, name);
      assert forall i :: 0 < i < |lines| ==> lines[i] == t[i - 1];
      if Names(lines[0], name) {
        assert FirstOf(lines, name, 0);
      } else {
        forall i: nat | FirstOf(lines, name, i)
          ensures FirstValue(lines, name) == Some(Field(lines[i]).value.1)
        {
          assert FirstOf(t, name, i - 1);
        }
        if FirstValue(t, name).Some? {
          var k: nat :| FirstOf(t, name, k);
          assert FirstOf(lines, name, k + 1);
        }
      }
    }
  }

  lemma {:induction false} LastValueIs(lines: seq<Bytes>, name: Bytes)
    ensures LastValue(lines, name).None? <==> forall i :: 0 <= i < |lines| ==> !Names(lines[i], name)
    ensures forall i: nat | LastOf(lines, name, i) :: LastValue(lines, name) == Some(Field(lines[i]).value.1)
    ensures LastValue(lines, name).Some? ==> exists i: nat :: LastOf(lines, name, i)
  {
    hide Field, Names, LastOf;
    if lines == [] {
      forall i: nat
        ensures !LastOf(lines, name, i)
      {
        LastWithin(lines, name, i);
      }
    } else {
      var n := |lines| - 1;
      var t := lines[..n];
      LastValueIs(t, name);
      assert lines == t + [lines[n]];
      forall i: nat
        ensures LastOf(lines, name, i) <==> if Names(lines[n], name) then i == n else LastOf(t, name, i)
        ensures LastOf(t, name, i) ==> i < n && t[i] == lines[i]
      {
        LastOneMore(t, lines[n], name, i);
        LastWithin(t, name, i);
      }
      if !Names(lines[n], name) && LastValue(t, name).Some? {
        var i: nat :| LastOf(t, name, i);
        assert LastOf(lines, name, i);
      } else if Names(lines[n], name) {
        assert LastOf(lines, name, n);
      }
    }
  }

  lemma LastWithin(lines: seq<Bytes>, name: Bytes, i: nat)
    ensures LastOf(lines, name, i) ==> i < |lines|
  {
  }

  lemma LastOneMore(t: seq<Bytes>, line: Bytes, name: Bytes, i: nat)
    ensures LastOf(t + [line], name, i) <==> if Names(line, name) then i == |t| else LastOf(t, name, i)
  {
    hide Names;
    var s := t + [line];
    assert s[|t|] == line && forall j :: 0 <= j < |t| ==> s[j] == t[j];
    if LastOf(t, name, i) && !Names(line, name) {
      assert LastOf(s, name, i);
    }
    if LastOf(s, name, i) && i < |t| {
      assert forall j :: i < j < |t| ==> !Names(s[j], name);
    }
  }

  /** A body is a frame exactly if one of its lines is named `data`.  The first of
      them gives the data, the last line named `event` the event, if it is text. */
  lemma ParsedIff(utf8: Utf8, body: Bytes)
    ensures
      var lines, frame := Lines(body), Parsed(utf8, body);
      && (frame.Some? <==> exists i: nat :: FirstOf(lines, Ascii("data"), i))
      && (forall i: nat | frame.Some? && FirstOf(lines, Ascii("data"), i) :: frame.value.data == Field(lines[i]).value.1)
      && (forall i: nat | frame.Some? && LastOf(lines, Ascii("event"), i) ::
            frame.value.event == if utf8(Field(lines[i]).value.1) then Some(Field(lines[i]).value.1) else None)
      && (frame.Some? && (forall i: nat :: !LastOf(lines, Ascii("event"), i)) ==> frame.value.event == None)
  {
    hide Field, Lines, FirstOf, LastOf;
    FirstValueIs(Lines(body), Ascii("data"));
    LastValueIs(Lines(body), Ascii("event"));
    if i: nat :| FirstOf(Lines(body), Ascii("data"), i) {
      assert FirstValue(Lines(body), Ascii("data")).Some?;
    }
  }

  // ----- A stream as providers write it -----

  /** How a provider writes a frame: a space behind colons or none, and which line
      endings between its lines and after it. */
  datatype Style = Style(spaced: bool, inner: Ending, last: Ending)

  datatype Ending = Lf | CrLf {
    function Bytes(): Bytes {
      if Lf? then [LF] else [CR, LF]
    }
  }

  datatype Sent = Sent(frame: Frame, style: Style)

  /** No line feed inside, no carriage return at the end, no space at the start that
      would be taken for the optional one. */
  predicate OneLine(v: Bytes, spaced: bool) {
    LF !in v && (v != [] ==> v[|v| - 1] != CR && (spaced || v[0] != SPACE))
  }

  predicate Writable(utf8: Utf8, x: Sent) {
    var f := x.frame;
    OneLine(f.data, x.style.spaced) && (f.event.Some? ==> OneLine(f.event.value, x.style.spaced) && utf8(f.event.value))
  }

  function Line(name: Bytes, value: Bytes, spaced: bool): Bytes {
    name + [COLON] + ((if spaced then [SPACE] else []) + value)
  }

  function Written(x: Sent): Bytes {
    var f, spaced := x.frame, x.style.spaced;
    if f.event.Some? then Line(EVENT, f.event.value, spaced) + x.style.inner.Bytes() + Line(DATA, f.data, spaced)
    else Line(DATA, f.data, spaced)
  }

  /** The end of the last line, and an empty line. */
  function End(x: Sent): Bytes {
    x.style.last.Bytes() + x.style.last.Bytes()
  }

  function Stream(sent: seq<Sent>): Bytes {
    if sent == [] then [] else (Written(sent[0]) + End(sent[0])) + Stream(sent[1..])
  }

  lemma {:induction false} LinesOfOne(x: Bytes)
    requires LF !in x
    ensures Lines(x) == [x]
  {
    if x != [] {
      LinesOfOne(x[1..]);
      assert [x[0]] + x[1..] == x;
    }
  }

  lemma {:induction false} LinesOfMore(x: Bytes, y: Bytes)
    requires LF !in x
    ensures Lines(x + [LF] + y) == [x] + Lines(y)
  {
    var s := x + [LF] + y;
    if x == [] {
      assert s[1..] == y;
    } else {
      assert s[1..] == x[1..] + [LF] + y;
      LinesOfMore(x[1..], y);
      assert [x[0]] + x[1..] == x;
    }
  }

  lemma {:induction false} PositionOf(x: Bytes, b: byte, y: Bytes)
    requires b !in x
    ensures Position(x + [b] + y, b) == |x|
  {
    if x != [] {
      assert (x + [b] + y)[1..] == x[1..] + [b] + y;
      PositionOf(x[1..], b, y);
    }
  }

  lemma FieldOfLine(name: Bytes, value: Bytes, spaced: bool, raw: Bytes)
    requires name != [] && COLON !in name && OneLine(value, spaced)
    requires raw == Line(name, value, spaced) || raw == Line(name, value, spaced) + [CR]
    ensures Field(raw) == Some((name, value))
  {
    var line := Line(name, value, spaced);
    ChompedIs(raw, line);
    assert spaced ==> line == name + [58, 32] + value;
    assert !spaced ==> line == name + [58] + value;
    SaidIsField(raw, name, value);
  }

  lemma LabelsPlain()
    ensures EVENT != [] && COLON !in EVENT && LF !in EVENT && CR !in EVENT
    ensures DATA != [] && COLON !in DATA && LF !in DATA && CR !in DATA
    ensures EVENT[0] != LF && DATA[0] != LF && DATA[0] != CR
  {
    assert |EVENT| == 5 && |DATA| == 4;
  }

  lemma ParsedWritten(utf8: Utf8, x: Sent)
    requires Writable(utf8, x)
    ensures Parsed(utf8, Written(x)) == Some(x.frame)
  {
    hide Field, Position;
    LabelsPlain();
    FieldNamesDiffer();
    var f, spaced := x.frame, x.style.spaced;
    var data := Line(DATA, f.data, spaced);
    FieldOfLine(DATA, f.data, spaced, data);
    LinesOfOne(data);
    if f.event.Some? {
      var line := Line(EVENT, f.event.value, spaced);
      var event := if x.style.inner.Lf? then line else line + [CR];
      FieldOfLine(EVENT, f.event.value, spaced, event);
      LinesOfMore(event, data);
      var lines := [event, data];
      assert Written(x) == event + [LF] + data;
      assert lines[..1] == [event] && lines[1..] == [data];
      assert LastValue([event], EVENT) == Some(f.event.value);
      assert FirstValue([data], DATA) == Some(f.data);
      assert Lines(Written(x)) == lines;
    } else {
      assert [data][..0] == [] && LastValue([], EVENT) == None;
      assert LastValue([data], EVENT) == None;
    }
  }

  lemma WrittenEnds(utf8: Utf8, x: Sent, rest: Bytes)
    requires Writable(utf8, x)
    ensures First(Written(x) + End(x) + rest) == Some((|Written(x)|, |End(x)|))
  {
    LabelsPlain();
    var body, s := Written(x), Written(x) + End(x) + rest;
    forall i | 0 <= i < |body|
      ensures SeparatorAt(s, i) == 0
    {
      NotInside(utf8, x, rest, i);
    }
    assert forall j :: 0 <= j < |End(x)| ==> s[|body| + j] == End(x)[j];
    FirstIsUnique(s, Some((|body|, |End(x)|)));
  }

  lemma NotInside(utf8: Utf8, x: Sent, rest: Bytes, i: nat)
    requires Writable(utf8, x) && i < |Written(x)|
    ensures SeparatorAt(Written(x) + End(x) + rest, i) == 0
  {
    hide SeparatorAt, Line;
    LabelsPlain();
    var f, spaced := x.frame, x.style.spaced;
    var data, after := Line(DATA, f.data, spaced), End(x) + rest;
    PlainLine(DATA, f.data, spaced);
    assert Written(x) + End(x) + rest == Written(x) + after;
    if f.event.Some? {
      PlainLine(EVENT, f.event.value, spaced);
      TwoLinesCutNothing(Line(EVENT, f.event.value, spaced), x.style.inner, data, after, i);
    } else {
      PlainCutsNothing(data, after, i);
    }
  }

  lemma TwoLinesCutNothing(event: Bytes, inner: Ending, data: Bytes, after: Bytes, i: nat)
    requires event != [] && LF !in event && event[|event| - 1] != CR
    requires data != [] && LF !in data && data[|data| - 1] != CR && data[0] != CR
    requires i < |event + inner.Bytes() + data|
    ensures SeparatorAt(event + inner.Bytes() + data + after, i) == 0
  {
    hide SeparatorAt;
    var s, sep := event + inner.Bytes() + data + after, inner.Bytes();
    assert s == event + (sep + (data + after));
    if i < |event| {
      PlainCutsNothing(event, sep + (data + after), i);
    } else if i < |event| + |sep| {
      InnerCutsNothing(event, inner, data + after, i);
    } else {
      assert s == (event + sep) + (data + after);
      PlainCutsNothing(data, after, i - |event + sep|);
      SeparatorShifts(event + sep, data + after, i - |event + sep|);
    }
  }

  lemma SeparatorShifts(a: Bytes, s: Bytes, i: nat)
    requires i < |s|
    ensures SeparatorAt(a + s, |a| + i) == SeparatorAt(s, i)
  {
    var t := a + s;
    assert forall j :: 0 <= j < |s| ==> t[|a| + j] == s[j];
  }

  /** No separator starts within a line that has no line feed and no carriage return at
      its end. */
  lemma PlainCutsNothing(line: Bytes, after: Bytes, i: nat)
    requires LF !in line && i < |line| && line[|line| - 1] != CR
    ensures SeparatorAt(line + after, i) == 0
  {
    var s := line + after;
    assert s[i] == line[i];
    if i + 1 < |line| {
      assert s[i + 1] == line[i + 1];
    }
  }

  lemma InnerCutsNothing(event: Bytes, inner: Ending, next: Bytes, i: nat)
    requires next != [] && next[0] != LF && next[0] != CR && |event| <= i < |event| + |inner.Bytes()|
    ensures SeparatorAt(event + (inner.Bytes() + next), i) == 0
  {
    var s := inner.Bytes() + next;
    SeparatorShifts(event, s, i - |event|);
    assert s[|inner.Bytes()|] == next[0];
  }

  lemma PlainLine(name: Bytes, value: Bytes, spaced: bool)
    requires LF !in name && OneLine(value, spaced)
    ensures var line := Line(name, value, spaced); line != [] && LF !in line && line[|line| - 1] != CR
    ensures name != [] ==> Line(name, value, spaced)[0] == name[0]
  {
  }

  /** Frames written out as providers write them, with either line ending and with or
      without the space, come back as they were, and nothing is left over, however
      the stream was cut. */
  lemma {:induction false} StreamRoundTrip(utf8: Utf8, sent: seq<Sent>)
    requires forall x | x in sent :: Writable(utf8, x)
    ensures Frames(utf8, Split(Stream(sent)).0) == AllSent(sent) && Split(Stream(sent)).1 == []
  {
    hide First, Split, Parsed, Written;
    if sent == [] {
      NoneInNothing();
      SplitWhole([]);
    } else {
      var x, rest := sent[0], Stream(sent[1..]);
      StreamRoundTrip(utf8, sent[1..]);
      WrittenEnds(utf8, x, rest);
      ParsedWritten(utf8, x);
      var s := Stream(sent);
      assert s == Written(x) + End(x) + rest;
      FramesCut(utf8, s, |Written(x)|, |End(x)|, []);
      assert s[..|Written(x)|] == Written(x) && s[|Written(x)| + |End(x)|..] == rest;
      assert [] + Frames(utf8, Split(s).0) == Frames(utf8, Split(s).0);
      assert [] + [x.frame] == [x.frame];
    }
  }

  function AllSent(sent: seq<Sent>): seq<Frame> {
    if sent == [] then [] else [sent[0].frame] + AllSent(sent[1..])
  }
}
