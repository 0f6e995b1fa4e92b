/** The loop that reads events into a buffer and hands them to the monitor. */
module ReadLoop {
  import opened Pathnames
  import opened Inotify
  import opened MonitorModel
  import opened Options
  import opened MonitorViews
  import opened DirectoryMonitor

  const EVENT_HEADER: nat := 16
  const READ_BUF_LEN: nat := 100 * (EVENT_HEADER + NAME_MAX + 1)

  /** A byte of the buffer: the first one of an event stands for its fields. */
  datatype Cell = Head(ev: Event) | Pad

  /** The header and, when there is one, the name padded with null bytes. */
  function Size(e: Event): (n: nat)
    ensures 16 <= n && n % 16 == 0
    ensures if e.name == "" then n == 16 else |e.name| < n - 16 <= |e.name| + 16
    ensures |e.name| <= NAME_MAX ==> n <= EVENT_HEADER + NAME_MAX + 1
  {
    EVENT_HEADER + (if e.name == "" then 0 else (|e.name| + 16) / 16 * 16)
  }

  function EncodeOne(e: Event): (cells: seq<Cell>)
    ensures |cells| == Size(e) && cells[0] == Head(e)
  {
    [Head(e)] + seq(Size(e) - 1, _ => Pad)
  }

  function Encode(evs: seq<Event>): (cells: seq<Cell>)
    ensures evs == [] <==> cells == []
  {
    if evs == [] then [] else EncodeOne(evs[0]) + Encode(evs[1..])
  }

  lemma {:induction false} EncodeAppend(a: seq<Event>, b: seq<Event>)
    ensures Encode(a + b) == Encode(a) + Encode(b)
    decreases |a|
  {
    if a == [] {
      assert a + b == b;
    } else {
      assert (a + b)[0] == a[0] && (a + b)[1..] == a[1..] + b;
      EncodeAppend(a[1..], b);
    }
  }

  /** The bytes in use hold the events; after an interrupted read the count is one
      too small, and the last byte of the only event is left out. */
  ghost predicate Layout(cells: seq<Cell>, evs: seq<Event>) {
    cells == Encode(evs) || (|evs| == 1 && cells == EncodeOne(evs[0])[..Size(evs[0]) - 1])
  }

  lemma LayoutHead(cells: seq<Cell>, evs: seq<Event>)
    requires Layout(cells, evs) && evs != []
    ensures cells != [] && cells[0] == Head(evs[0])
    ensures Size(evs[0]) < |cells| <==> |evs| > 1
    ensures |evs| > 1 ==> cells[Size(evs[0])] == Head(evs[1])
  {
    if cells == Encode(evs) {
      var one, rest := EncodeOne(evs[0]), Encode(evs[1..]);
      assert cells == one + rest && cells[0] == one[0];
      if |evs| > 1 {
        assert cells[Size(evs[0])] == rest[0];
        assert rest == EncodeOne(evs[1]) + Encode(evs[1..][1..]);
      }
    }
  }

  lemma EncodeTwo(evs: seq<Event>)
    requires |evs| > 0
    ensures |Encode(evs[..1])| == Size(evs[0])
    ensures |evs| > 1 ==> |Encode(evs[..2])| == Size(evs[0]) + Size(evs[1])
  {
    assert evs[..1][1..] == [];
    if |evs| > 1 {
      assert evs[..2][1..] == [evs[1]];
      assert [evs[1]][1..] == [];
    }
  }

  lemma LayoutRest(cells: seq<Cell>, evs: seq<Event>, n: nat)
    requires Layout(cells, evs) && 1 <= n <= |evs|
    ensures var len := |Encode(evs[..n])|;
            if len <= |cells| then cells[len..] == Encode(evs[n..]) else n == |evs|
    ensures cells == Encode(evs) ==> |Encode(evs[..n])| <= |cells|
  {
    assert evs == evs[..n] + evs[n..];
    EncodeAppend(evs[..n], evs[n..]);
    EncodeTwo(evs);
  }

  /** Every read returns no more bytes than the buffer has room for. */
  ghost predicate Fits(s: Monitor, buf: seq<Event>, chunks: seq<seq<Event>>, firstTry: bool)
    requires WfKernel(s.k) && AllKernel(buf) && AllReads(chunks)
    decreases |buf| + TotalLen(chunks), |chunks|, firstTry
  {
    && |Encode(buf)| <= READ_BUF_LEN
    && (buf == [] || s.exited ||
        match Process(s, buf, firstTry)
        case Consumed(s', n) => Fits(s', buf[n..], chunks, true)
        case Rebuilt(_) => true
        case Hanging =>
          if chunks == [] then Fits(s, buf, [], false) else Fits(s, buf + chunks[0], chunks[1..], false))
  }

  /** `reopened` tells that the caller's inotify descriptor was replaced by a new one. */
  method ProcessNextInotifyEvent(m: Monitored, buf: array<Cell>, evp: nat, numRead: nat, firstTry: bool,
                                 ghost evs: seq<Event>)
    returns (evLen: int, reopened: bool)
    requires m.Valid() && !m.exited && evs != [] && AllKernel(evs)
    requires evp <= numRead <= buf.Length && Layout(buf[evp..numRead], evs)
    modifies m
    ensures m.Valid() && (reopened <==> Process(old(m.State()), evs, firstTry).Rebuilt?)
    ensures match Process(old(m.State()), evs, firstTry)
            case Consumed(s', n) => m.State() == s' && evLen == |Encode(evs[..n])|
            case Rebuilt(s') => m.State() == s' && evLen == 27200
            case Hanging => m.State() == old(m.State()) && evLen == -1
  {
    hide WfKernel, Process, Holds, DistinctRoots, Forgotten, Encode, Layout;
    LayoutHead(buf[evp..numRead], evs);
    EncodeTwo(evs);
    var ev := buf[evp].ev;
    var next := evp + Size(ev);
    var nextEv := if next < numRead then Some(buf[next].ev) else None;
    var r := m.HandleEvent(ev, nextEv, firstTry, evs);
    reopened := r.Discard?;
    match r
    case Used(n) => evLen := Size(ev) + (if n == 2 then Size(nextEv.value) else 0);
    case Discard => evLen := READ_BUF_LEN;
    case ReadMore => evLen := -1;
  }

  /** read(): the bytes of whole events, or -1 when the alarm interrupted it. */
  method Read(buf: array<Cell>, at: nat, evs: seq<Event>) returns (nr: int)
    requires at + |Encode(evs)| <= buf.Length
    modifies buf
    ensures buf[..at] == old(buf[..at])
    ensures if evs == [] then nr == -1 else nr == |Encode(evs)| && buf[at..at + nr] == Encode(evs)
  {
    var cells := Encode(evs);
    for j := 0 to |cells|
      invariant buf[..at] == old(buf[..at])
      invariant forall i :: 0 <= i < j ==> buf[at + i] == cells[i]
    {
      buf[at + j] := cells[j];
    }
    nr := if evs == [] then -1 else |cells|;
  }

  /** Shuffle the remaining bytes to the start of the buffer, front to back. */
  method Shuffle(buf: array<Cell>, evp: nat, n: nat)
    requires evp + n <= buf.Length
    modifies buf
    ensures buf[..n] == old(buf[evp..evp + n])
  {
    ghost var was := buf[..];
    for j := 0 to n
      invariant forall i :: 0 <= i < j ==> buf[i] == was[evp + i]
      invariant forall i :: j <= i < buf.Length ==> buf[i] == was[i]
    {
      buf[j] := buf[evp + j];
    }
    assert buf[..n] == was[evp..evp + n];
  }

  /** The buffer after a read that was to complete a lone "moved from". */
  method ReadMoreEvents(buf: array<Cell>, evp: nat, numRead: nat, chunk: seq<Event>, ghost evs: seq<Event>)
    returns (numRead': nat)
    requires evp <= numRead <= buf.Length && |evs| == 1 && buf[evp..numRead] == Encode(evs)
    requires |Encode(evs + chunk)| <= buf.Length
    modifies buf
    ensures 0 < numRead' <= buf.Length && Layout(buf[..numRead'], evs + chunk)
  {
    var n := numRead - evp;
    EncodeAppend(evs, chunk);
    Shuffle(buf, evp, n);
    assert buf[..n] == Encode(evs);
    var nr := Read(buf, n, chunk);
    numRead' := n + nr;
    assert evs[1..] == [] && Encode(evs) == EncodeOne(evs[0]) + [];
    if chunk == [] {
      assert evs + chunk == evs;
      assert buf[..numRead'] == buf[..n][..n - 1];
    } else {
      assert buf[..numRead'] == buf[..n] + buf[n..numRead'];
    }
  }

  lemma FirstRead(s: Monitor, chunks: seq<seq<Event>>)
    requires WfKernel(s.k) && AllReads(chunks) && chunks != [] && Fits(s, chunks[0], chunks[1..], true)
    ensures AllKernel(chunks[0]) && AllReads(chunks[1..]) && |Encode(chunks[0])| <= READ_BUF_LEN
  {
    hide WfKernel, Process, KernelEvent, Encode;
  }

  lemma LoopStops(s: Monitor, evs: seq<Event>, rest: seq<seq<Event>>, firstTry: bool)
    requires WfKernel(s.k) && AllKernel(evs) && AllReads(rest)
    ensures evs == [] || s.exited ==> Loop(s, evs, rest, firstTry) == LoopEnd(s, rest, false)
    ensures evs != [] && !s.exited && Process(s, evs, firstTry).Rebuilt? ==>
              Loop(s, evs, rest, firstTry) == LoopEnd(Process(s, evs, firstTry).s, rest, true)
  {
    hide WfKernel, Process, Encode;
  }

  lemma AfterUse(s: Monitor, evs: seq<Event>, rest: seq<seq<Event>>, firstTry: bool, o: Outcome)
    requires WfKernel(s.k) && AllKernel(evs) && AllReads(rest) && evs != [] && !s.exited
    requires Fits(s, evs, rest, firstTry) && Process(s, evs, firstTry) == o && o.Consumed?
    ensures WfKernel(o.s.k) && 1 <= o.count <= |evs| && AllKernel(evs[o.count..])
    ensures Fits(o.s, evs[o.count..], rest, true)
    ensures Loop(s, evs, rest, firstTry) == Loop(o.s, evs[o.count..], rest, true)
  {
    hide WfKernel, Process, KernelEvent, Encode;
  }

  lemma AfterHang(s: Monitor, evs: seq<Event>, rest: seq<seq<Event>>, firstTry: bool, chunk: seq<Event>,
                  rest': seq<seq<Event>>)
    requires WfKernel(s.k) && AllKernel(evs) && AllReads(rest) && evs != [] && !s.exited
    requires Fits(s, evs, rest, firstTry) && Process(s, evs, firstTry) == Hanging
    requires if rest == [] then chunk == [] && rest' == [] else chunk == rest[0] && rest' == rest[1..]
    ensures |evs| == 1 && firstTry && AllKernel(evs + chunk) && AllReads(rest')
    ensures Fits(s, evs + chunk, rest', false) && |Encode(evs + chunk)| <= READ_BUF_LEN
    ensures Loop(s, evs, rest, firstTry) == Loop(s, evs + chunk, rest', false)
    ensures |evs + chunk| + TotalLen(rest') == |evs| + TotalLen(rest)
  {
    hide WfKernel, Process, KernelEvent, Encode;
    assert rest == [] ==> evs + chunk == evs;
  }

  /** One call handles the events of the buffer as `Loop` says, whatever the reads
      return, and comes to an end. */
  method ProcessInotifyEvents(m: Monitored, chunks: seq<seq<Event>>)
    returns (rest: seq<seq<Event>>, reopened: bool)
    requires m.Valid() && !m.exited && AllReads(chunks) && chunks != [] && chunks[0] != []
    requires Fits(m.State(), chunks[0], chunks[1..], true)
    modifies m
    ensures m.Valid()
    ensures var e := Loop(old(m.State()), chunks[0], chunks[1..], true);
            m.State() == e.s && rest == e.chunks && reopened == e.rebuilt
  {
    hide WfKernel, Process, Holds, DistinctRoots, Forgotten, Encode, EncodeOne, KernelEvent, AllReads, Fits, Loop;
    assert AllKernel(chunks[0]) && AllReads(chunks[1..]) && |Encode(chunks[0])| <= READ_BUF_LEN by {
      FirstRead(m.State(), chunks);
    }
    var buf := new Cell[READ_BUF_LEN](_ => Pad);
    ghost var evs := chunks[0];
    rest := chunks[1..];
    var firstTry := true;
    var nr := Read(buf, 0, chunks[0]);
    var evp: nat, numRead: nat := 0, nr;
    assert buf[0..nr] == buf[evp..numRead];
    ghost var end := Loop(m.State(), evs, rest, true);
    reopened := false;
    while evp < numRead && !m.exited
      invariant m.Valid() && numRead <= buf.Length && AllKernel(evs) && AllReads(rest)
      invariant evs != [] ==> evp < numRead && Layout(buf[evp..numRead], evs)
      invariant firstTry && evs != [] ==> buf[evp..numRead] == Encode(evs)
      invariant evs == [] ==> numRead <= evp
      invariant reopened ==> evs == [] && end == LoopEnd(m.State(), rest, true)
      invariant !reopened ==> Loop(m.State(), evs, rest, firstTry) == end && Fits(m.State(), evs, rest, firstTry)
      decreases |evs| + TotalLen(rest), |rest|, firstTry
    {
      ghost var s := m.State();
      var evLen: int;
      evLen, reopened := ProcessNextInotifyEvent(m, buf, evp, numRead, firstTry, evs);
      if evLen > 0 {
        ghost var o := Process(s, evs, firstTry);
        if o.Consumed? {
          AfterUse(s, evs, rest, firstTry, o);
          LayoutRest(buf[evp..numRead], evs, o.count);
          evs := evs[o.count..];
          assert evp + evLen <= numRead ==> buf[evp..numRead][evLen..] == buf[evp + evLen..numRead];
        } else {
          LoopStops(s, evs, rest, firstTry);
          evs := [];
        }
        evp := evp + evLen;
        firstTry := true;
      } else {
        var chunk, rest' := if rest == [] then [] else rest[0], if rest == [] then [] else rest[1..];
        AfterHang(s, evs, rest, firstTry, chunk, rest');
        numRead := ReadMoreEvents(buf, evp, numRead, chunk, evs);
        assert buf[0..numRead] == buf[..numRead];
        firstTry := false;
        rest := rest';
        evs := evs + chunk;
        evp := 0;
      }
    }
    if !reopened {
      LoopStops(m.State(), evs, rest, firstTry);
    }
  }

  // ----- The main loop ------------------------------------------------------

  ghost predicate ServeFits(s: Monitor, chunks: seq<seq<Event>>)
    requires WfKernel(s.k) && AllReads(chunks)
    decreases |chunks|
  {
    || chunks == [] || s.exited
    || (&& Fits(s, chunks[0], chunks[1..], true)
        && var e := Loop(s, chunks[0], chunks[1..], true);
           e.rebuilt || ServeFits(e.s, e.chunks))
  }

  lemma ServeStep(s: Monitor, chunks: seq<seq<Event>>)
    requires WfKernel(s.k) && AllReads(chunks) && chunks != [] && !s.exited && ServeFits(s, chunks)
    ensures AllKernel(chunks[0]) && AllReads(chunks[1..]) && Fits(s, chunks[0], chunks[1..], true)
    ensures var e := Loop(s, chunks[0], chunks[1..], true);
            && |e.chunks| < |chunks| && AllReads(e.chunks)
            && (chunks[0] == [] ==> e == LoopEnd(s, chunks[1..], false))
            && Serve(s, chunks) == (if e.rebuilt then e.s else Serve(e.s, e.chunks))
            && (!e.rebuilt ==> ServeFits(e.s, e.chunks))
  {
    hide WfKernel, Process, KernelEvent, Encode, Fits;
  }

  /** Calls of ProcessInotifyEvents() whenever there is something to read. What was still
      to be read from a descriptor is gone once that has been replaced. */
  method MonitorEvents(m: Monitored, chunks: seq<seq<Event>>)
    requires m.Valid() && AllReads(chunks) && ServeFits(m.State(), chunks)
    modifies m
    ensures m.Valid() && m.State() == Serve(old(m.State()), chunks)
  {
    hide WfKernel, Process, Holds, DistinctRoots, Forgotten, Encode, KernelEvent, AllReads, Fits, Loop, Serve,
         ServeFits;
    var rest := chunks;
    while rest != [] && !m.exited
      invariant m.Valid() && AllReads(rest) && ServeFits(m.State(), rest)
      invariant Serve(m.State(), rest) == Serve(old(m.State()), chunks)
      decreases |rest|
    {
      ServeStep(m.State(), rest);
      if rest[0] == [] {
        rest := rest[1..];
      } else {
        var rest', reopened := ProcessInotifyEvents(m, rest);
        if reopened {
          ServeEnds(m.State(), []);
        }
        rest := if reopened then [] else rest';
      }
    }
    ServeEnds(m.State(), rest);
  }

  lemma ServeEnds(s: Monitor, chunks: seq<seq<Event>>)
    requires WfKernel(s.k) && AllReads(chunks)
    ensures chunks == [] || s.exited ==> Serve(s, chunks) == s && ServeFits(s, chunks)
    ensures chunks == [] ==> AllReads(chunks)
  {
  }

  // ----- A hundred events always fit ----------------------------------------

  lemma {:induction false} EncodeBound(evs: seq<Event>)
    requires AllKernel(evs)
    ensures |Encode(evs)| <= |evs| * (EVENT_HEADER + NAME_MAX + 1)
    decreases |evs|
  {
    if evs != [] {
      assert KernelEvent(evs[0]);
      EncodeBound(evs[1..]);
    }
  }

  lemma {:induction false} FewFit(s: Monitor, buf: seq<Event>, chunks: seq<seq<Event>>, firstTry: bool)
    requires WfKernel(s.k) && AllKernel(buf) && AllReads(chunks) && |buf| + TotalLen(chunks) <= 100
    ensures Fits(s, buf, chunks, firstTry)
    decreases |buf| + TotalLen(chunks), |chunks|, firstTry
  {
    hide WfKernel, Process, KernelEvent, Encode;
    EncodeBound(buf);
    if buf != [] && !s.exited {
      match Process(s, buf, firstTry)
      case Consumed(s', n) => FewFit(s', buf[n..], chunks, true);
      case Rebuilt(_) =>
      case Hanging =>
        if chunks == [] {
          FewFit(s, buf, [], false);
        } else {
          FewFit(s, buf + chunks[0], chunks[1..], false);
        }
    }
  }

  lemma {:induction false} FewServeFit(s: Monitor, chunks: seq<seq<Event>>)
    requires WfKernel(s.k) && AllReads(chunks) && TotalLen(chunks) <= 100
    ensures ServeFits(s, chunks)
    decreases |chunks|
  {
    hide WfKernel, Process, KernelEvent, Encode, Loop, Fits;
    if chunks != [] && !s.exited {
      assert AllKernel(chunks[0]) && AllReads(chunks[1..]);
      FewFit(s, chunks[0], chunks[1..], true);
      var e := Loop(s, chunks[0], chunks[1..], true);
      if !e.rebuilt {
        FewServeFit(e.s, e.chunks);
      }
    }
  }

  // ----- Every event is handled ---------------------------------------------

  /** The events that a call handles, in order; a pair counts as two. */
  ghost function Handled(s: Monitor, buf: seq<Event>, chunks: seq<seq<Event>>, firstTry: bool): seq<Event>
    requires WfKernel(s.k) && AllKernel(buf) && AllReads(chunks)
    decreases |buf| + TotalLen(chunks), |chunks|, firstTry
  {
    if buf == [] || s.exited then []
    else match Process(s, buf, firstTry)
      case Consumed(s', n) => buf[..n] + Handled(s', buf[n..], chunks, true)
      case Rebuilt(_) => []
      case Hanging =>
        if chunks == [] then Handled(s, buf, [], false) else Handled(s, buf + chunks[0], chunks[1..], false)
  }

  lemma {:induction false} FlattenAppend(a: seq<seq<Event>>, b: seq<seq<Event>>)
    ensures Flatten(a + b) == Flatten(a) + Flatten(b)
    decreases |a|
  {
    if a == [] {
      assert a + b == b;
    } else {
      assert (a + b)[0] == a[0] && (a + b)[1..] == a[1..] + b;
      FlattenAppend(a[1..], b);
    }
  }

  /** The reads made are the first ones; `h` is a first part of what they returned
      after `buf`, and all of it unless the call ended early. */
  ghost predicate Accounts(h: seq<Event>, buf: seq<Event>, chunks: seq<seq<Event>>, e: LoopEnd) {
    var used := |chunks| - |e.chunks|;
    && 0 <= used && e.chunks == chunks[used..]
    && var returned := buf + Flatten(chunks[..used]);
       h <= returned && (!e.rebuilt && !e.s.exited ==> h == returned)
  }

  lemma AccountsUse(h: seq<Event>, buf: seq<Event>, n: nat, chunks: seq<seq<Event>>, e: LoopEnd)
    requires n <= |buf| && Accounts(h, buf[n..], chunks, e)
    ensures Accounts(buf[..n] + h, buf, chunks, e)
  {
    var tail := Flatten(chunks[..|chunks| - |e.chunks|]);
    assert buf + tail == buf[..n] + (buf[n..] + tail);
  }

  lemma AccountsRead(h: seq<Event>, buf: seq<Event>, chunks: seq<seq<Event>>, e: LoopEnd)
    requires chunks != [] && Accounts(h, buf + chunks[0], chunks[1..], e)
    ensures Accounts(h, buf, chunks, e)
  {
    var used := |chunks| - |e.chunks|;
    assert chunks[..used] == [chunks[0]] + chunks[1..][..used - 1];
    FlattenAppend([chunks[0]], chunks[1..][..used - 1]);
    assert Flatten([chunks[0]]) == chunks[0];
    assert chunks[used..] == chunks[1..][used - 1..];
    var tail := Flatten(chunks[1..][..used - 1]);
    assert buf + (chunks[0] + tail) == buf + chunks[0] + tail;
  }

  /** What a call handles is what its reads returned, each event once and in order;
      nothing is left over unless the cache was rebuilt or the program ended. */
  lemma {:induction false} EveryEventOnce(s: Monitor, buf: seq<Event>, chunks: seq<seq<Event>>, firstTry: bool)
    requires WfKernel(s.k) && AllKernel(buf) && AllReads(chunks)
    ensures Accounts(Handled(s, buf, chunks, firstTry), buf, chunks, Loop(s, buf, chunks, firstTry))
    decreases |buf| + TotalLen(chunks), |chunks|, firstTry
  {
    hide WfKernel, Process, KernelEvent;
    var e := Loop(s, buf, chunks, firstTry);
    if buf == [] || s.exited {
      assert chunks[..0] == [] && chunks[0..] == chunks;
    } else {
      match Process(s, buf, firstTry)
      case Consumed(s', n) =>
        EveryEventOnce(s', buf[n..], chunks, true);
        AccountsUse(Handled(s', buf[n..], chunks, true), buf, n, chunks, e);
      case Rebuilt(_) =>
        assert chunks[..0] == [] && chunks[0..] == chunks;
      case Hanging =>
        if chunks == [] {
          EveryEventOnce(s, buf, [], false);
        } else {
          EveryEventOnce(s, buf + chunks[0], chunks[1..], false);
          AccountsRead(Handled(s, buf + chunks[0], chunks[1..], false), buf, chunks, e);
        }
    }
  }
}
