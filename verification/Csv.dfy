/** The streaming CSV parser: however the input is cut into chunks, the fields reported are the same. */
module Csv {

  datatype Config = Config(escape: char, comma: char, hasTrailingComma: bool)

  datatype Error = Ok | QuoteNotClosed | InconsistentColumns | NoTrailingComma

  /** One `on_field` call. */
  datatype Event = Event(col: nat, row: nat, field: string)

  /** The parser between two characters, but for the last-comma flag. */
  datatype Core = Core(field: string, col: nat, row: nat, numCols: nat, afterFirst: bool, quoted: bool,
                       afterRecord: bool, escaping: bool, newlining: bool)

  /** `split`: a pending carriage return was the last character of its chunk. */
  datatype State = State(core: Core, afterField: bool, split: bool)

  const START: State := State(Core([], 0, 0, 0, false, false, false, false, false), false, false)

  datatype Outcome = Good(state: State, events: seq<Event>) | Bad(events: seq<Event>, error: Error)

  function Fail(o: Outcome): Error { if o.Good? then Ok else o.error }

  function After(events: seq<Event>, o: Outcome): Outcome {
    if o.Good? then Good(o.state, events + o.events) else Bad(events + o.events, o.error)
  }

  // ---------- one character at a time ----------

  function Push(s: State, c: char): State {
    State(s.core.(field := s.core.field + [c], afterRecord := false), false, s.split)
  }

  /** The end of a record. After a split carriage return the flag for the last comma stays as it was. */
  function EndRecord(cfg: Config, s: State): Outcome {
    var k := s.core;
    var cols := if cfg.hasTrailingComma then k.col else k.col + 1;
    if cfg.hasTrailingComma && !s.afterField then Bad([], NoTrailingComma)
    else if k.afterFirst && cols != k.numCols then Bad([], InconsistentColumns)
    else
      var next := k.(col := 0, row := k.row + 1, numCols := cols, afterFirst := true, newlining := false,
                     afterRecord := true);
      if cfg.hasTrailingComma then Good(State(next, s.split && s.afterField, false), [])
      else Good(State(next.(field := []), s.split && s.afterField, false), [Event(k.col, k.row, k.field)])
  }

  /** A character when nothing is pending. */
  function Plain(cfg: Config, s: State, c: char): Outcome {
    var k := s.core;
    if c != cfg.comma && c != '\n' && c != '\r' && c != '"' && c != cfg.escape then Good(Push(s, c), [])
    else if c == cfg.comma then
      if !k.quoted then
        Good(Separated(s), [Event(k.col, k.row, k.field)])
      else Good(Push(s, c), [])
    else if c == '\n' || c == '\r' then
      if k.quoted then Good(Push(s, c), [])
      else if c == '\r' then Good(Returned(s), [])
      else EndRecord(cfg, s)
    else if c == '"' then
      if cfg.escape == '"' && k.quoted then Good(Escaped(s), [])
      else Good(Toggled(s), [])
    else if k.quoted then Good(Escaped(s), [])
    else Good(Push(s, c), [])
  }

  function Separated(s: State): State {
    State(s.core.(field := [], col := s.core.col + 1, afterRecord := false), true, s.split)
  }

  function Toggled(s: State): State { State(s.core.(quoted := !s.core.quoted, afterRecord := false), false, s.split) }

  function Returned(s: State): State { s.(core := s.core.(newlining := true)) }

  function Escaped(s: State): State { s.(core := s.core.(escaping := true)) }

  /** Whether the character after a pending escape belongs to it. */
  predicate Escapes(cfg: Config, c: char) { c == '"' || (cfg.escape != '"' && c == cfg.escape) }

  /** The state once the character after a pending escape is known. */
  function Unescaped(cfg: Config, s: State, c: char): State {
    var k := s.core.(escaping := false);
    s.(core := if Escapes(cfg, c) then k.(field := k.field + [c])
               else if cfg.escape == '"' then k.(quoted := false)
               else k.(field := k.field + [cfg.escape]))
  }

  function Step(cfg: Config, s: State, c: char): Outcome {
    if s.core.escaping then
      if Escapes(cfg, c) then Good(Unescaped(cfg, s, c), []) else Plain(cfg, Unescaped(cfg, s, c), c)
    else if s.core.newlining then
      var e := EndRecord(cfg, s);
      if e.Bad? || c == '\n' then e else After(e.events, Plain(cfg, e.state, c))
    else Plain(cfg, s, c)
  }

  function Run(cfg: Config, s: State, cs: string): Outcome
    decreases |cs|
  {
    if cs == [] then Good(s, []) else
      var o := Step(cfg, s, cs[0]);
      if o.Bad? then o else After(o.events, Run(cfg, o.state, cs[1..]))
  }

  /** What a chunk boundary does to a pending carriage return. */
  function Cut(s: State): State { s.(split := s.core.newlining) }

  /** Inside quotes neither separator was just seen, and only quotes are escaped. */
  predicate Sane(s: State) {
    && (s.core.quoted ==> !s.afterField && !s.core.afterRecord && !s.core.newlining)
    && (s.core.escaping ==> s.core.quoted)
    && (s.split ==> s.core.newlining)
  }

  predicate Idle(s: State) { Sane(s) && !s.core.escaping && !s.core.newlining }

  lemma StepSane(cfg: Config, s: State, c: char)
    requires Sane(s)
    ensures var o := Step(cfg, s, c); o.Good? ==> Sane(o.state)
  {
    hide EndRecord, Plain, Unescaped;
    if s.core.escaping {
      UnescapedIdle(cfg, s, c);
      PlainSane(cfg, Unescaped(cfg, s, c), c);
    } else if s.core.newlining {
      EndRecordIdle(cfg, s);
      var o := EndRecord(cfg, s);
      if o.Good? { PlainSane(cfg, o.state, c); }
    } else {
      PlainSane(cfg, s, c);
    }
  }

  lemma EndRecordIdle(cfg: Config, s: State)
    requires Sane(s) && !s.core.quoted
    ensures var o := EndRecord(cfg, s); o.Good? ==> Idle(o.state)
  {
  }

  lemma UnescapedIdle(cfg: Config, s: State, c: char)
    requires Sane(s) && s.core.escaping
    ensures Idle(Unescaped(cfg, s, c))
  {
  }

  lemma PlainSane(cfg: Config, s: State, c: char)
    requires Idle(s)
    ensures var o := Plain(cfg, s, c); o.Good? ==> Sane(o.state)
  {
    hide EndRecord;
    if !s.core.quoted { EndRecordIdle(cfg, s); }
  }

  // ---------- runs, character pairs taken together ----------

  lemma AfterAfter(a: seq<Event>, b: seq<Event>, o: Outcome)
    ensures After(a, After(b, o)) == After(a + b, o) && After([], o) == o
  {
  }

  lemma {:induction false} RunPlain(cfg: Config, s: State, cs: string)
    requires Idle(s) && cs != []
    ensures var o := Plain(cfg, s, cs[0]);
      Run(cfg, s, cs) == if o.Bad? then o else After(o.events, Run(cfg, o.state, cs[1..]))
  {
  }

  /** A carriage return with its successor at hand. */
  lemma RunReturn(cfg: Config, s: State, cs: string)
    requires Idle(s) && !s.core.quoted && |cs| >= 2 && Plain(cfg, s, cs[0]) == Good(Returned(s), [])
    ensures var e := EndRecord(cfg, s);
      Run(cfg, s, cs) ==
        if e.Bad? then e else After(e.events, Run(cfg, e.state, if cs[1] == '\n' then cs[2..] else cs[1..]))
  {
    hide Plain;
    var t, rest := Returned(s), cs[1..];
    var e := EndRecord(cfg, s);
    AfterAfter([], [], Run(cfg, t, rest));
    assert rest[1..] == cs[2..];
    assert EndRecord(cfg, t) == e;
    if e.Good? && cs[1] != '\n' {
      var p := Plain(cfg, e.state, rest[0]);
      if p.Good? {
        AfterAfter(e.events, p.events, Run(cfg, p.state, rest[1..]));
      }
      RunPlain(cfg, e.state, rest);
    }
  }

  /** An escape with its successor at hand. */
  lemma RunEscape(cfg: Config, s: State, cs: string)
    requires Idle(s) && |cs| >= 2 && Plain(cfg, s, cs[0]) == Good(Escaped(s), []) && s.core.quoted
    ensures var t := Unescaped(cfg, s, cs[1]);
      Idle(t) && Run(cfg, s, cs) == Run(cfg, t, if Escapes(cfg, cs[1]) then cs[2..] else cs[1..])
  {
    var t, rest := Escaped(s), cs[1..];
    AfterAfter([], [], Run(cfg, t, rest));
    assert rest[1..] == cs[2..];
    ResolveEscape(cfg, t, rest);
  }

  /** A pending escape meets the next character. */
  lemma ResolveEscape(cfg: Config, s: State, cs: string)
    requires Sane(s) && s.core.escaping && cs != []
    ensures var t := Unescaped(cfg, s, cs[0]);
      Idle(t) && Run(cfg, s, cs) == Run(cfg, t, if Escapes(cfg, cs[0]) then cs[1..] else cs)
  {
    var t := Unescaped(cfg, s, cs[0]);
    AfterAfter([], [], Run(cfg, t, cs[1..]));
    if !Escapes(cfg, cs[0]) {
      RunPlain(cfg, t, cs);
    }
  }

  /** A pending carriage return meets the next character. */
  lemma ResolveReturn(cfg: Config, s: State, cs: string)
    requires Sane(s) && s.core.newlining && cs != []
    ensures var e := EndRecord(cfg, s);
      (e.Good? ==> Idle(e.state)) && Run(cfg, s, cs) ==
        if e.Bad? then e else After(e.events, Run(cfg, e.state, if cs[0] == '\n' then cs[1..] else cs))
  {
    var e := EndRecord(cfg, s);
    if e.Good? && cs[0] != '\n' {
      var p := Plain(cfg, e.state, cs[0]);
      if p.Good? {
        AfterAfter(e.events, p.events, Run(cfg, p.state, cs[1..]));
      }
      RunPlain(cfg, e.state, cs);
    }
  }

  lemma NewlineIs(cfg: Config, s: State, c: char)
    requires c != cfg.comma && (c == '\n' || c == '\r')
    ensures Plain(cfg, s, c) ==
      if s.core.quoted then Good(Push(s, c), []) else if c == '\r' then Good(Returned(s), []) else EndRecord(cfg, s)
  {
  }

  lemma QuoteIs(cfg: Config, s: State)
    requires cfg.comma != '"'
    ensures Plain(cfg, s, '"') == Good(if cfg.escape == '"' && s.core.quoted then Escaped(s) else Toggled(s), [])
  {
  }

  lemma EscapeIs(cfg: Config, s: State, c: char)
    requires c == cfg.escape && c != cfg.comma && c != '\n' && c != '\r' && c != '"'
    ensures Plain(cfg, s, c) == Good(if s.core.quoted then Escaped(s) else Push(s, c), [])
  {
  }

  // ---------- the parser ----------

  class CSVParser {
    const cfg: Config
    var currentField: string
    var colIdx: nat
    var rowIdx: nat
    var numCols: nat
    var afterFirstRow: bool
    var quoted: bool
    var afterFieldSep: bool
    var afterRecordSep: bool
    var escaping: bool
    var newlining: bool
    var events: seq<Event>

    function Abs(): State
      reads this
    {
      State(Core(currentField, colIdx, rowIdx, numCols, afterFirstRow, quoted, afterRecordSep, escaping, newlining),
            afterFieldSep, newlining)
    }

    constructor (cfg: Config)
      ensures this.cfg == cfg && Abs() == START && events == []
    {
      this.cfg := cfg;
      currentField, colIdx, rowIdx, numCols, events := [], 0, 0, 0, [];
      afterFirstRow, quoted, afterFieldSep, afterRecordSep := false, false, false, false;
      escaping, newlining := false, false;
    }

    method OnField()
      modifies this`events, this`currentField
      ensures events == old(events) + [Event(colIdx, rowIdx, old(currentField))] && currentField == []
    {
      events := events + [Event(colIdx, rowIdx, currentField)];
      currentField := [];
    }

    /** The checks and updates that both places ending a record share; the flags are left to the caller. */
    method CloseRecord() returns (error: Error)
      modifies this`currentField, this`colIdx, this`rowIdx, this`numCols, this`afterFirstRow, this`events
      ensures var e := EndRecord(cfg, old(Abs()));
        error == Fail(e) && events == old(events) + e.events
        && (e.Good? ==>
              e.state == State(Abs().core.(newlining := false, afterRecord := true), newlining && afterFieldSep, false))
    {
      if cfg.hasTrailingComma {
        if !afterFieldSep { return NoTrailingComma; }
        if !afterFirstRow {
          afterFirstRow, numCols := true, colIdx;
        } else if colIdx != numCols {
          return InconsistentColumns;
        }
      } else {
        if !afterFirstRow {
          afterFirstRow, numCols := true, colIdx + 1;
        } else if colIdx + 1 != numCols {
          return InconsistentColumns;
        }
        OnField();
      }
      colIdx, rowIdx := 0, rowIdx + 1;
      return Ok;
    }

    /** An unquoted or quoted separator between fields. */
    method Comma(buffer: string, at: nat) returns (i: nat)
      requires at < |buffer| && Idle(Abs()) && buffer[at] == cfg.comma
      modifies this
      ensures at < i <= |buffer| && old(events) <= events
      ensures Took(cfg, old(Abs()), buffer[at..], events[|old(events)|..], Abs(), buffer[i..], false, Ok)
    {
      RunPlain(cfg, Abs(), buffer[at..]);
      hide Run;
      var sep := !quoted;
      if sep {
        OnField();
        colIdx := colIdx + 1;
      } else {
        currentField := currentField + [buffer[at]];
      }
      afterFieldSep, afterRecordSep := sep, false;
      i := at + 1;
    }

    method Newline(buffer: string, at: nat) returns (i: nat, stop: bool, error: Error)
      requires at < |buffer| && Idle(Abs()) && buffer[at] != cfg.comma && (buffer[at] == '\n' || buffer[at] == '\r')
      modifies this
      ensures at < i <= |buffer| && old(events) <= events
      ensures Took(cfg, old(Abs()), buffer[at..], events[|old(events)|..], Abs(), buffer[i..], stop, error)
    {
      ghost var s, rest := Abs(), buffer[at..];
      RunPlain(cfg, s, rest);
      NewlineIs(cfg, s, rest[0]);
      hide Run, Plain, EndRecord;
      i, stop, error := at, false, Ok;
      if quoted {
        currentField := currentField + [buffer[i]];
        afterFieldSep, afterRecordSep := false, false;
        return i + 1, false, Ok;
      }
      if buffer[i] == '\r' {
        if i + 1 == |buffer| {
          newlining := true;
          RunNothing(cfg, Returned(s));
          return i + 1, true, Ok;
        }
        RunReturn(cfg, s, rest);
        if buffer[i + 1] == '\n' {
          i := i + 1;
        }
      }
      EndRecordIdle(cfg, s);
      error := FinishRecord();
      i := i + 1;
    }

    /** A record that ends inside a chunk. */
    method FinishRecord() returns (error: Error)
      requires Idle(Abs())
      modifies this
      ensures var e := EndRecord(cfg, old(Abs()));
        error == Fail(e) && events == old(events) + e.events && (e.Good? ==> Abs() == e.state)
    {
      error := CloseRecord();
      if error == Ok { afterFieldSep, afterRecordSep := false, true; }
    }

    method Quote(buffer: string, at: nat) returns (i: nat, stop: bool)
      requires at < |buffer| && Idle(Abs()) && buffer[at] != cfg.comma && buffer[at] == '"'
      modifies this
      ensures at < i <= |buffer| && old(events) <= events
      ensures Took(cfg, old(Abs()), buffer[at..], events[|old(events)|..], Abs(), buffer[i..], stop, Ok)
    {
      ghost var s, rest := Abs(), buffer[at..];
      RunPlain(cfg, s, rest);
      QuoteIs(cfg, s);
      hide Run, Plain, EndRecord;
      i, stop := at, false;
      if cfg.escape == '"' {
        if !quoted {
          quoted := true;
        } else {
          if i + 1 == |buffer| {
            escaping := true;
            RunNothing(cfg, Escaped(s));
            return i + 1, true;
          }
          RunEscape(cfg, s, rest);
          if buffer[i + 1] == '"' {
            i := i + 1;
            currentField := currentField + ['"'];
          } else {
            quoted := false;
          }
        }
      } else {
        quoted := !quoted;
      }
      afterFieldSep, afterRecordSep := false, false;
      i := i + 1;
    }

    method Escape(buffer: string, at: nat) returns (i: nat, stop: bool)
      requires at < |buffer| && Idle(Abs()) && buffer[at] == cfg.escape
      requires buffer[at] != cfg.comma && buffer[at] != '\n' && buffer[at] != '\r' && buffer[at] != '"'
      modifies this
      ensures at < i <= |buffer| && old(events) <= events
      ensures Took(cfg, old(Abs()), buffer[at..], events[|old(events)|..], Abs(), buffer[i..], stop, Ok)
    {
      ghost var s, rest := Abs(), buffer[at..];
      RunPlain(cfg, s, rest);
      EscapeIs(cfg, s, rest[0]);
      hide Run, Plain, EndRecord;
      i, stop := at, false;
      if quoted {
        if i + 1 == |buffer| {
          escaping := true;
          RunNothing(cfg, Escaped(s));
          return i + 1, true;
        }
        RunEscape(cfg, s, rest);
        var next := buffer[i + 1];
        if next == '"' || next == cfg.escape {
          currentField := currentField + [next];
          i := i + 1;
        } else {
          currentField := currentField + [cfg.escape];
        }
      } else {
        currentField := currentField + [buffer[i]];
      }
      afterFieldSep, afterRecordSep := false, false;
      i := i + 1;
    }

    /** One turn of the character loop: `i` is where it leaves off, `stop` that it returned at a pending character. */
    method Character(buffer: string, at: nat) returns (i: nat, stop: bool, error: Error)
      requires at < |buffer| && Idle(Abs())
      modifies this
      ensures at < i <= |buffer| && old(events) <= events
      ensures Took(cfg, old(Abs()), buffer[at..], events[|old(events)|..], Abs(), buffer[i..], stop, error)
    {
      var c := buffer[at];
      i, stop, error := at + 1, false, Ok;
      if c != cfg.comma && c != '\n' && c != '\r' && c != '"' && c != cfg.escape {
        RunPlain(cfg, Abs(), buffer[at..]);
        hide Run;
        currentField := currentField + [c];
        afterFieldSep, afterRecordSep := false, false;
      } else if c == cfg.comma {
        hide *;
        i := Comma(buffer, at);
      } else if c == '\n' || c == '\r' {
        hide *;
        i, stop, error := Newline(buffer, at);
      } else if c == '"' {
        hide *;
        i, stop := Quote(buffer, at);
      } else {
        hide *;
        i, stop := Escape(buffer, at);
      }
    }

    /** What the start of a chunk settles: a pending escape or a pending carriage return. */
    method Resume(buffer: string) returns (i: nat, error: Error)
      requires Sane(Abs()) && buffer != []
      modifies this
      ensures old(events) <= events && i <= |buffer|
      ensures Took(cfg, old(Abs()), buffer, events[|old(events)|..], Abs(), buffer[i..], false, error)
    {
      ghost var s := Abs();
      i, error := 0, Ok;
      if escaping {
        ResolveEscape(cfg, s, buffer);
        hide Run;
        i := Pending(buffer[0]);
      } else if newlining {
        ResolveReturn(cfg, s, buffer);
        hide Run;
        if buffer[0] == '\n' { i := 1; }
        error := CloseRecord();
        if error == Ok { afterRecordSep, newlining := true, false; }
      } else {
        AfterAfter([], [], Run(cfg, s, buffer));
      }
    }

    /** An empty chunk only ends a record whose carriage return is pending. */
    method ExecuteEmpty() returns (error: Error)
      requires Sane(Abs()) && !escaping
      modifies this
      ensures old(events) <= events
      ensures if old(newlining) then
          var e := EndRecord(cfg, old(Abs())); error == Fail(e) && events == old(events) + e.events
        else Took(cfg, old(Abs()), [], events[|old(events)|..], Abs(), [], true, error)
    {
      RunNothing(cfg, Abs());
      hide Run, EndRecord;
      error := Ok;
      if newlining {
        error := CloseRecord();
        if error == Ok { afterRecordSep, newlining := true, false; }
      }
    }

    /** One chunk. An empty chunk may not follow a pending escape; after a pending carriage return it ends the
        record. */
    method Execute(buffer: string) returns (error: Error)
      requires Sane(Abs()) && (buffer == [] ==> !escaping)
      modifies this
      ensures old(events) <= events
      ensures if buffer == [] && old(newlining) then
          var e := EndRecord(cfg, old(Abs())); error == Fail(e) && events == old(events) + e.events
        else Took(cfg, old(Abs()), buffer, events[|old(events)|..], Abs(), [], true, error)
    {
      hide *;
      if buffer == [] {
        error := ExecuteEmpty();
        return;
      }
      ghost var before, s := events, Abs();
      var i: nat;
      i, error := Resume(buffer);
      if error != Ok {
        BadStays(cfg, s, buffer, events[|before|..], Abs(), buffer[i..], error);
        return;
      }
      Started(cfg, s, buffer, events[|before|..], Abs(), buffer[i..]);
      while i < |buffer|
        invariant i <= |buffer| && Idle(Abs()) && before <= events
        invariant Run(cfg, s, buffer) == After(events[|before|..], Run(cfg, Abs(), buffer[i..]))
      {
        ghost var old_, mid := Abs(), events;
        var next, stop, err := Character(buffer, i);
        Onward(cfg, s, buffer, mid[|before|..], old_, buffer[i..], events[|mid|..], Abs(), buffer[next..], stop, err);
        assert mid[|before|..] + events[|mid|..] == events[|before|..];
        if err != Ok || stop {
          BadStays(cfg, s, buffer, events[|before|..], Abs(), buffer[next..], err);
          return err;
        }
        Started(cfg, s, buffer, events[|before|..], Abs(), buffer[next..]);
        i := next;
      }
      assert buffer[i..] == [];
      Finished(cfg, s, buffer, events[|before|..], Abs());
      return Ok;
    }

    /** `finish` */
    method Finish() returns (error: Error)
      requires Sane(Abs())
      modifies this
      ensures var o := Ended(cfg, old(Abs()));
        error == Fail(o) && events == old(events) + o.events
    {
      hide Run;
      if quoted {
        return QuoteNotClosed;
      } else if newlining {
        error := Execute("");
      } else if !afterRecordSep {
        error := Execute("\n");
      } else {
        return Ok;
      }
    }

    /** The character after a pending escape. */
    method Pending(c: char) returns (i: nat)
      requires escaping
      modifies this
      ensures Abs() == Unescaped(cfg, old(Abs()), c) && i == (if Escapes(cfg, c) then 1 else 0) && events == old(events)
    {
      i := 0;
      if cfg.escape == '"' {
        if c == '"' {
          i := 1;
          currentField := currentField + ['"'];
        } else {
          quoted := false;
        }
      } else if c == '"' || c == cfg.escape {
        currentField := currentField + [c];
        i := 1;
      } else {
        currentField := currentField + [cfg.escape];
      }
      escaping := false;
    }
  }

  /** What a stretch of the parser's work has to do with the run of its characters. */
  ghost predicate Took(cfg: Config, before: State, cs: string, new_: seq<Event>, after: State, rest: string,
                       stop: bool, error: Error) {
    var o := Run(cfg, before, cs);
    if error != Ok then o == Bad(new_, error)
    else if stop then o.Good? && o.events == new_ && Cut(o.state) == after && Sane(after)
    else Idle(after) && o == After(new_, Run(cfg, after, rest))
  }

  lemma {:induction false} Onward(cfg: Config, s: State, cs: string, done: seq<Event>, mid: State, rest: string,
                                  new_: seq<Event>, after: State, rest': string, stop: bool, error: Error)
    requires Run(cfg, s, cs) == After(done, Run(cfg, mid, rest))
    requires Took(cfg, mid, rest, new_, after, rest', stop, error)
    ensures Took(cfg, s, cs, done + new_, after, rest', stop, error)
  {
    hide Run;
    AfterAfter(done, new_, Run(cfg, after, rest'));
  }

  lemma {:induction false} Started(cfg: Config, s: State, cs: string, done: seq<Event>, after: State, rest: string)
    requires Took(cfg, s, cs, done, after, rest, false, Ok)
    ensures Idle(after) && Run(cfg, s, cs) == After(done, Run(cfg, after, rest))
  {
  }

  /** An error or a stop at a pending character says nothing about what is left. */
  lemma BadStays(cfg: Config, s: State, cs: string, done: seq<Event>, after: State, rest: string, error: Error)
    ensures error != Ok && Took(cfg, s, cs, done, after, rest, false, error) ==>
      Took(cfg, s, cs, done, after, [], true, error)
    ensures Took(cfg, s, cs, done, after, rest, true, error) ==> Took(cfg, s, cs, done, after, [], true, error)
  {
  }

  lemma {:induction false} Finished(cfg: Config, s: State, cs: string, done: seq<Event>, after: State)
    requires Run(cfg, s, cs) == After(done, Run(cfg, after, [])) && Idle(after)
    ensures Took(cfg, s, cs, done, after, [], true, Ok)
  {
  }

  lemma {:induction false} RunNothing(cfg: Config, s: State)
    ensures Run(cfg, s, []) == Good(s, [])
  {
  }

  // ---------- whole inputs ----------

  /** What `finish` adds. */
  function Ended(cfg: Config, s: State): Outcome {
    if s.core.quoted then Bad([], QuoteNotClosed)
    else if s.core.newlining then EndRecord(cfg, s)
    else if !s.core.afterRecord then Run(cfg, s, "\n")
    else Good(s, [])
  }

  function RunChunks(cfg: Config, s: State, chunks: seq<string>): Outcome
    decreases |chunks|
  {
    if chunks == [] then Good(s, []) else
      var o := Run(cfg, s, chunks[0]);
      if o.Bad? then o else After(o.events, RunChunks(cfg, Cut(o.state), chunks[1..]))
  }

  function Parse(cfg: Config, chunks: seq<string>): Outcome {
    var o := RunChunks(cfg, START, chunks);
    if o.Bad? then o else After(o.events, Ended(cfg, o.state))
  }

  function Joined(chunks: seq<string>): string
    decreases |chunks|
  {
    if chunks == [] then [] else chunks[0] + Joined(chunks[1..])
  }

  predicate NonEmpty(chunks: seq<string>) { forall i | 0 <= i < |chunks| :: chunks[i] != [] }

  /** Feeding the chunks in turn, then `finish`; the first error stops everything. */
  method ParseChunks(cfg: Config, chunks: seq<string>) returns (events: seq<Event>, error: Error)
    requires NonEmpty(chunks)
    ensures events == Parse(cfg, chunks).events && error == Fail(Parse(cfg, chunks))
  {
    var p := new CSVParser(cfg);
    hide Run, Ended;
    ghost var whole := RunChunks(cfg, START, chunks);
    assert chunks[0..] == chunks;
    for i := 0 to |chunks|
      invariant p.cfg == cfg && Sane(p.Abs())
      invariant whole == After(p.events, RunChunks(cfg, p.Abs(), chunks[i..]))
    {
      ghost var before, s := p.events, p.Abs();
      ChunkStep(cfg, s, chunks[i..], before);
      assert chunks[i..][1..] == chunks[i + 1..];
      error := p.Execute(chunks[i]);
      assert p.events == before + p.events[|before|..];
      if error != Ok { return p.events, error; }
    }
    error := p.Finish();
    events := p.events;
  }

  lemma {:induction false} ChunkStep(cfg: Config, s: State, chunks: seq<string>, done: seq<Event>)
    requires chunks != []
    ensures var o := Run(cfg, s, chunks[0]);
      After(done, RunChunks(cfg, s, chunks)) ==
        if o.Bad? then After(done, o) else After(done + o.events, RunChunks(cfg, Cut(o.state), chunks[1..]))
  {
    hide Run;
    var o := Run(cfg, s, chunks[0]);
    if o.Good? { AfterAfter(done, o.events, RunChunks(cfg, Cut(o.state), chunks[1..])); }
  }

  lemma {:induction false} RunSplit(cfg: Config, s: State, a: string, b: string)
    ensures var o := Run(cfg, s, a);
      Run(cfg, s, a + b) == if o.Bad? then o else After(o.events, Run(cfg, o.state, b))
    decreases |a|
  {
    hide Step;
    if a == [] {
      assert a + b == b;
      AfterAfter([], [], Run(cfg, s, b));
    } else {
      assert (a + b)[0] == a[0] && (a + b)[1..] == a[1..] + b;
      var o := Step(cfg, s, a[0]);
      if o.Good? {
        RunSplit(cfg, o.state, a[1..], b);
        var r := Run(cfg, o.state, a[1..]);
        if r.Good? { AfterAfter(o.events, r.events, Run(cfg, r.state, b)); }
      }
    }
  }

  // ---------- chunk independence ----------

  /** The flag for the last comma and the split mark are all that chunk boundaries can change. */
  predicate Same(s: State, t: State) { s.core == t.core }

  predicate SameOutcome(o: Outcome, p: Outcome) {
    && o.events == p.events && (o.Good? <==> p.Good?) && Fail(o) == Fail(p)
    && (o.Good? && p.Good? ==> Same(o.state, p.state))
  }

  lemma EndRecordSame(cfg: Config, s: State, t: State)
    requires !cfg.hasTrailingComma && Same(s, t)
    ensures SameOutcome(EndRecord(cfg, s), EndRecord(cfg, t))
  {
  }

  lemma PlainSame(cfg: Config, s: State, t: State, c: char)
    requires !cfg.hasTrailingComma && Same(s, t)
    ensures SameOutcome(Plain(cfg, s, c), Plain(cfg, t, c))
  {
    hide EndRecord;
    EndRecordSame(cfg, s, t);
  }

  lemma StepSame(cfg: Config, s: State, t: State, c: char)
    requires !cfg.hasTrailingComma && Same(s, t)
    ensures SameOutcome(Step(cfg, s, c), Step(cfg, t, c))
  {
    hide EndRecord, Plain;
    if s.core.escaping {
      PlainSame(cfg, Unescaped(cfg, s, c), Unescaped(cfg, t, c), c);
    } else if s.core.newlining {
      EndRecordSame(cfg, s, t);
      var o, p := EndRecord(cfg, s), EndRecord(cfg, t);
      if o.Good? { PlainSame(cfg, o.state, p.state, c); }
    } else {
      PlainSame(cfg, s, t, c);
    }
  }

  lemma {:induction false} RunSame(cfg: Config, s: State, t: State, cs: string)
    requires !cfg.hasTrailingComma && Same(s, t)
    ensures SameOutcome(Run(cfg, s, cs), Run(cfg, t, cs))
    decreases |cs|
  {
    hide Step;
    if cs != [] {
      StepSame(cfg, s, t, cs[0]);
      var o, p := Step(cfg, s, cs[0]), Step(cfg, t, cs[0]);
      if o.Good? && p.Good? { RunSame(cfg, o.state, p.state, cs[1..]); }
    }
  }

  lemma {:induction false} ChunksSame(cfg: Config, s: State, t: State, chunks: seq<string>)
    requires !cfg.hasTrailingComma && Same(s, t)
    ensures SameOutcome(Run(cfg, s, Joined(chunks)), RunChunks(cfg, t, chunks))
    decreases |chunks|
  {
    hide Run;
    if chunks == [] {
      RunNothing(cfg, s);
    } else {
      RunSplit(cfg, s, chunks[0], Joined(chunks[1..]));
      RunSame(cfg, s, t, chunks[0]);
      var o, p := Run(cfg, s, chunks[0]), Run(cfg, t, chunks[0]);
      if o.Good? && p.Good? { ChunksSame(cfg, o.state, Cut(p.state), chunks[1..]); }
    }
  }

  lemma EndedSame(cfg: Config, s: State, t: State)
    requires !cfg.hasTrailingComma && Same(s, t)
    ensures SameOutcome(Ended(cfg, s), Ended(cfg, t))
  {
    hide Run;
    RunSame(cfg, s, t, "\n");
  }

  /** Without trailing commas every way to cut an input into chunks reports the same fields and the same first error. */
  lemma {:induction false} ChunkIndependence(cfg: Config, chunks: seq<string>)
    requires NonEmpty(chunks) && !cfg.hasTrailingComma
    ensures var whole, cut := Parse(cfg, [Joined(chunks)]), Parse(cfg, chunks);
      whole.events == cut.events && Fail(whole) == Fail(cut)
  {
    hide Run, Ended, RunChunks;
    ChunksSame(cfg, START, START, chunks);
    OneChunk(cfg, Joined(chunks));
    var o, p := Run(cfg, START, Joined(chunks)), RunChunks(cfg, START, chunks);
    if o.Good? && p.Good? { EndedSame(cfg, Cut(o.state), p.state); }
  }

  lemma {:induction false} OneChunk(cfg: Config, cs: string)
    ensures RunChunks(cfg, START, [cs]) ==
      var o := Run(cfg, START, cs); if o.Bad? then o else Good(Cut(o.state), o.events)
  {
    hide Run;
    var o := Run(cfg, START, cs);
    assert [cs][1..] == [];
    if o.Good? { assert RunChunks(cfg, Cut(o.state), []) == Good(Cut(o.state), []); }
  }

  // ---------- trailing commas ----------

  /** `t` has seen boundaries, `s` none: only a stale comma flag right after a record may tell them apart. */
  predicate Stale(s: State, t: State) {
    && Same(s, t) && !s.split
    && (s.afterField ==> s.core.col >= 1) && (s.core.afterFirst ==> s.core.numCols >= 1)
    && (s.afterField != t.afterField ==> t.afterField && s.core.afterRecord && s.core.col == 0 && s.core.afterFirst)
  }

  /** The same events, and an error in both or in neither; a missing trailing comma may be reported as a wrong count. */
  predicate SimilarOutcome(o: Outcome, p: Outcome) {
    && o.events == p.events && (o.Good? <==> p.Good?)
    && (o.Good? && p.Good? ==> Stale(o.state, p.state))
    && (o.Bad? && p.Bad? ==> o.error == p.error || (o.error == NoTrailingComma && p.error == InconsistentColumns))
  }

  lemma EndRecordStale(cfg: Config, s: State, t: State)
    requires cfg.hasTrailingComma && Stale(s, t)
    ensures SimilarOutcome(EndRecord(cfg, s), EndRecord(cfg, t))
    ensures var o := EndRecord(cfg, s);
      o.Good? ==> o.state.core.quoted == s.core.quoted && o.state.core.escaping == s.core.escaping
  {
  }

  lemma PlainStale(cfg: Config, s: State, t: State, c: char)
    requires cfg.hasTrailingComma && Stale(s, t) && (s.core.quoted ==> !s.core.afterRecord)
    ensures SimilarOutcome(Plain(cfg, s, c), Plain(cfg, t, c))
  {
    PushStale(s, t, c);
    SeparatorStale(s, t);
    EndRecordStale(cfg, s, t);
    hide EndRecord, Stale, Push;
  }

  /** Any character of a field clears the flag. */
  lemma PushStale(s: State, t: State, c: char)
    requires Stale(s, t)
    ensures Stale(Push(s, c), Push(t, c)) && Stale(Toggled(s), Toggled(t))
  {
  }

  /** A separator sets the flag; pending characters leave it alone. */
  lemma SeparatorStale(s: State, t: State)
    requires Stale(s, t)
    ensures Stale(Separated(s), Separated(t)) && Stale(Returned(s), Returned(t))
    ensures s.core.quoted && !s.core.afterRecord ==> Stale(Escaped(s), Escaped(t))
  {
  }

  lemma StepStale(cfg: Config, s: State, t: State, c: char)
    requires cfg.hasTrailingComma && Sane(s) && Stale(s, t)
    ensures SimilarOutcome(Step(cfg, s, c), Step(cfg, t, c))
  {
    hide EndRecord, Plain;
    if s.core.escaping {
      PlainStale(cfg, Unescaped(cfg, s, c), Unescaped(cfg, t, c), c);
    } else if s.core.newlining {
      EndRecordStale(cfg, s, t);
      var o, p := EndRecord(cfg, s), EndRecord(cfg, t);
      if o.Good? { PlainStale(cfg, o.state, p.state, c); }
    } else {
      PlainStale(cfg, s, t, c);
    }
  }

  lemma {:induction false} RunStale(cfg: Config, s: State, t: State, cs: string)
    requires cfg.hasTrailingComma && Sane(s) && Stale(s, t)
    ensures SimilarOutcome(Run(cfg, s, cs), Run(cfg, t, cs))
    ensures var o := Run(cfg, s, cs); o.Good? ==> Sane(o.state)
    decreases |cs|
  {
    hide Step, Stale, Sane;
    if cs != [] {
      StepStale(cfg, s, t, cs[0]);
      StepSane(cfg, s, cs[0]);
      var o, p := Step(cfg, s, cs[0]), Step(cfg, t, cs[0]);
      if o.Good? { RunStale(cfg, o.state, p.state, cs[1..]); }
    }
  }

  lemma {:induction false} ChunksStale(cfg: Config, s: State, t: State, chunks: seq<string>)
    requires cfg.hasTrailingComma && Sane(s) && Stale(s, t)
    ensures SimilarOutcome(Run(cfg, s, Joined(chunks)), RunChunks(cfg, t, chunks))
    decreases |chunks|
  {
    hide Run, Sane;
    if chunks == [] {
      RunNothing(cfg, s);
    } else {
      RunSplit(cfg, s, chunks[0], Joined(chunks[1..]));
      RunStale(cfg, s, t, chunks[0]);
      var o, p := Run(cfg, s, chunks[0]), Run(cfg, t, chunks[0]);
      if o.Good? { ChunksStale(cfg, o.state, Cut(p.state), chunks[1..]); }
    }
  }

  lemma EndedStale(cfg: Config, s: State, t: State)
    requires cfg.hasTrailingComma && Sane(s) && Stale(s, t)
    ensures var o, p := Ended(cfg, s), Ended(cfg, t);
      && o.events == p.events && (o.Good? <==> p.Good?)
      && (Fail(o) == Fail(p) || (Fail(o) == NoTrailingComma && Fail(p) == InconsistentColumns))
  {
    hide Run;
    RunStale(cfg, s, t, "\n");
  }

  lemma EndedCut(cfg: Config, s: State)
    requires !s.split
    ensures Ended(cfg, Cut(s)).events == Ended(cfg, s).events && Fail(Ended(cfg, Cut(s))) == Fail(Ended(cfg, s))
  {
    hide Run;
  }

  /** With trailing commas, too, every way to cut an input reports the same fields, and an error exactly when the whole
      input has one; only a missing trailing comma may turn into a wrong number of columns. */
  lemma {:induction false} ChunksWithTrailingComma(cfg: Config, chunks: seq<string>)
    requires NonEmpty(chunks) && cfg.hasTrailingComma
    ensures var whole, cut := Parse(cfg, [Joined(chunks)]), Parse(cfg, chunks);
      && whole.events == cut.events && (Fail(whole) == Ok <==> Fail(cut) == Ok)
      && (Fail(whole) == Fail(cut) || (Fail(whole) == NoTrailingComma && Fail(cut) == InconsistentColumns))
  {
    hide Run, Ended, RunChunks;
    ChunksStale(cfg, START, START, chunks);
    OneChunk(cfg, Joined(chunks));
    var o, p := Run(cfg, START, Joined(chunks)), RunChunks(cfg, START, chunks);
    if o.Good? {
      RunStale(cfg, START, START, Joined(chunks));
      EndedStale(cfg, o.state, p.state);
      EndedCut(cfg, o.state);
    }
  }

  /** A carriage return cut from its line feed hides the missing trailing comma of the empty line after it. */
  lemma CutReturnMatters()
    ensures var cfg := Config('"', ',', true);
      && Fail(Parse(cfg, ["a,\r", "\n\n"])) == InconsistentColumns
      && Fail(Parse(cfg, ["a,\r\n\n"])) == NoTrailingComma
  {
    var cfg := Config('"', ',', true);
    var s1 := START.(core := START.core.(field := ['a']));
    assert Step(cfg, START, 'a') == Good(s1, []);
    var s2 := START.(core := START.core.(col := 1), afterField := true);
    assert Step(cfg, s1, ',') == Good(s2, [Event(0, 0, ['a'])]);
    var s3 := Returned(s2);
    assert Step(cfg, s2, '\r') == Good(s3, []);
  }

  // ---------- exactly when the error differs ----------

  /** The error of a run over `cs` that ends there. */
  function WholeError(cfg: Config, s: State, cs: string): Error {
    var o := Run(cfg, s, cs);
    if o.Bad? then o.error else Fail(Ended(cfg, o.state))
  }

  /** The error of feeding chunks and finishing. */
  function ChunksError(cfg: Config, s: State, chunks: seq<string>): Error {
    var o := RunChunks(cfg, s, chunks);
    if o.Bad? then o.error else Fail(Ended(cfg, o.state))
  }

  predicate StartsLineEnd(cfg: Config, cs: string) {
    cs != [] && cs[0] != cfg.comma && (cs[0] == '\n' || cs[0] == '\r')
  }

  /** The line feed of a carriage return belongs to it. */
  function Past(cs: string): string { if cs != [] && cs[0] == '\n' then cs[1..] else cs }

  /** Some chunk ends with a carriage return that ends a complete record, and an empty line follows it. */
  predicate CutBeforeEmptyLine(cfg: Config, s: State, chunks: seq<string>)
    decreases |chunks|
  {
    || (s.core.newlining && EndRecord(cfg, s).Good? && StartsLineEnd(cfg, Past(Joined(chunks))))
    || (chunks != []
        && var o := Run(cfg, s, chunks[0]);
           o.Good? && CutBeforeEmptyLine(cfg, o.state, chunks[1..]))
  }

  /** A state of a run without boundaries. */
  predicate Uncut(s: State) { Sane(s) && !s.split && (s.afterField ==> s.core.col >= 1) }

  lemma EndRecordUncut(cfg: Config, s: State)
    requires Uncut(s) && !s.core.quoted
    ensures var o := EndRecord(cfg, s); o.Good? ==> Uncut(o.state) && Idle(o.state) && !o.state.core.quoted
  {
  }

  lemma PlainUncut(cfg: Config, s: State, c: char)
    requires Uncut(s) && Idle(s)
    ensures var o := Plain(cfg, s, c); o.Good? ==> Uncut(o.state)
  {
    hide EndRecord;
    if !s.core.quoted { EndRecordUncut(cfg, s); }
  }

  lemma UnescapedUncut(cfg: Config, s: State, c: char)
    requires Uncut(s) && s.core.escaping
    ensures Uncut(Unescaped(cfg, s, c)) && Idle(Unescaped(cfg, s, c))
  {
  }

  lemma StepUncut(cfg: Config, s: State, c: char)
    requires Uncut(s)
    ensures var o := Step(cfg, s, c); o.Good? ==> Uncut(o.state)
  {
    hide EndRecord, Plain, Unescaped;
    if s.core.escaping {
      UnescapedUncut(cfg, s, c);
      PlainUncut(cfg, Unescaped(cfg, s, c), c);
    } else if s.core.newlining {
      EndRecordUncut(cfg, s);
      var o := EndRecord(cfg, s);
      if o.Good? { PlainUncut(cfg, o.state, c); }
    } else {
      PlainUncut(cfg, s, c);
    }
  }

  lemma {:induction false} RunUncut(cfg: Config, s: State, cs: string)
    requires Uncut(s)
    ensures var o := Run(cfg, s, cs); o.Good? ==> Uncut(o.state)
    decreases |cs|
  {
    hide Step, Uncut;
    if cs != [] {
      StepUncut(cfg, s, cs[0]);
      var o := Step(cfg, s, cs[0]);
      if o.Good? { RunUncut(cfg, o.state, cs[1..]); }
    }
  }

  lemma {:induction false} WholeErrorSplit(cfg: Config, s: State, a: string, b: string)
    ensures var o := Run(cfg, s, a);
      WholeError(cfg, s, a + b) == if o.Bad? then o.error else WholeError(cfg, o.state, b)
  {
    hide Run, Ended;
    RunSplit(cfg, s, a, b);
  }

  lemma {:induction false} ChunksErrorStep(cfg: Config, s: State, chunks: seq<string>)
    requires chunks != []
    ensures var o := Run(cfg, s, chunks[0]);
      ChunksError(cfg, s, chunks) == if o.Bad? then o.error else ChunksError(cfg, Cut(o.state), chunks[1..])
  {
    hide Run, Ended;
  }

  /** Right after a record whose carriage return was cut off: `t` still has the comma flag set, `s` does not. */
  predicate FlagLeft(s: State, t: State) {
    && Idle(s) && !s.split && t == s.(afterField := true) && !s.afterField
    && s.core.afterRecord && !s.core.quoted && s.core.col == 0 && s.core.afterFirst && s.core.numCols >= 1
  }

  lemma RecordLeavesFlag(cfg: Config, s: State)
    requires cfg.hasTrailingComma && Uncut(s) && s.core.newlining
    ensures var e, f := EndRecord(cfg, s), EndRecord(cfg, Cut(s));
      if e.Bad? then e == f else f.Good? && e.events == f.events == [] && FlagLeft(e.state, f.state) && Uncut(e.state)
  {
  }

  /** The flag matters exactly for the end of an empty line. */
  lemma FlagStep(cfg: Config, s: State, t: State, c: char)
    requires cfg.hasTrailingComma && FlagLeft(s, t)
    ensures var o, p := Step(cfg, s, c), Step(cfg, t, c);
      if c != cfg.comma && c == '\n' then o == Bad([], NoTrailingComma) && p == Bad([], InconsistentColumns)
      else if c != cfg.comma && c == '\r' then o == Good(Returned(s), []) && p == Good(Returned(t), [])
      else o == p
  {
  }

  lemma EmptyLineErrors(cfg: Config, s: State, t: State, mark: bool)
    requires cfg.hasTrailingComma && FlagLeft(s, t)
    ensures EndRecord(cfg, Returned(s)) == Bad([], NoTrailingComma)
    ensures EndRecord(cfg, Returned(t).(split := mark)) == Bad([], InconsistentColumns)
  {
  }

  lemma {:induction false} RunFirst(cfg: Config, s: State, cs: string)
    requires cs != []
    ensures var o := Step(cfg, s, cs[0]);
      Run(cfg, s, cs) == if o.Bad? then o else After(o.events, Run(cfg, o.state, cs[1..]))
  {
  }

  lemma ReturnedStep(cfg: Config, s: State, c: char)
    requires s.core.newlining && !s.core.escaping && EndRecord(cfg, s).Bad?
    ensures Step(cfg, s, c) == EndRecord(cfg, s)
  {
  }

  /** A pending carriage return that cannot end its record fails at the next character or at the end. */
  lemma ReturnFails(cfg: Config, s: State, cs: string, chunks: seq<string>)
    requires Sane(s) && s.core.newlining && EndRecord(cfg, s).Bad? && NonEmpty(chunks)
    ensures WholeError(cfg, s, cs) == Fail(EndRecord(cfg, s)) == ChunksError(cfg, s, chunks)
  {
    hide EndRecord, Step;
    RunNothing(cfg, s);
    if cs != [] {
      RunFirst(cfg, s, cs);
      ReturnedStep(cfg, s, cs[0]);
    }
    if chunks != [] {
      assert chunks[0] != [];
      RunFirst(cfg, s, chunks[0]);
      ReturnedStep(cfg, s, chunks[0][0]);
      ChunksErrorStep(cfg, s, chunks);
    }
  }

  lemma {:induction false} JoinedParts(chunks: seq<string>)
    requires chunks != []
    ensures Joined(chunks) == chunks[0] + Joined(chunks[1..])
    ensures NonEmpty(chunks) ==>
      NonEmpty(chunks[1..]) && chunks[0] != [] && Joined(chunks) != [] && Joined(chunks)[0] == chunks[0][0]
  {
  }

  /** With the flag left set, an empty line is blamed on its column count. */
  lemma {:induction false} FlagAtLineEnd(cfg: Config, s: State, t: State, chunks: seq<string>)
    requires cfg.hasTrailingComma && FlagLeft(s, t) && NonEmpty(chunks) && StartsLineEnd(cfg, Joined(chunks))
    ensures WholeError(cfg, s, Joined(chunks)) == NoTrailingComma && ChunksError(cfg, t, chunks) == InconsistentColumns
  {
    hide Run, Step, Ended, EndRecord, Joined, RunChunks;
    assert chunks != [] by { NothingJoined(); }
    JoinedParts(chunks);
    var c, rest := chunks[0][0], chunks[0][1..];
    FlagStep(cfg, s, t, c);
    RunFirst(cfg, s, Joined(chunks));
    RunFirst(cfg, t, chunks[0]);
    ChunksErrorStep(cfg, t, chunks);
    if c == '\r' {
      EmptyLineErrors(cfg, s, t, false);
      EmptyLineErrors(cfg, s, t, true);
      ReturnFails(cfg, Returned(s), Joined(chunks)[1..], []);
      if rest == [] {
        RunNothing(cfg, Returned(t));
        ReturnFails(cfg, Cut(Returned(t)), [], chunks[1..]);
      } else {
        RunFirst(cfg, Returned(t), rest);
        ReturnedStep(cfg, Returned(t), rest[0]);
      }
    }
  }

  lemma NothingJoined()
    ensures Joined([]) == []
  {
  }

  lemma {:induction false} FlagIdle(cfg: Config, s: State, t: State)
    requires FlagLeft(s, t)
    ensures Fail(Ended(cfg, s)) == Fail(Ended(cfg, t)) == Ok && !CutBeforeEmptyLine(cfg, s, [])
  {
  }

  lemma {:induction false} FlagLost(cfg: Config, s: State, t: State, cs: string)
    requires cfg.hasTrailingComma && FlagLeft(s, t) && cs != [] && !StartsLineEnd(cfg, cs)
    ensures Run(cfg, s, cs) == Run(cfg, t, cs)
  {
    hide Step, Run;
    FlagStep(cfg, s, t, cs[0]);
    RunFirst(cfg, s, cs);
    RunFirst(cfg, t, cs);
  }

  lemma {:induction false} FlagMatters(cfg: Config, s: State, t: State, chunks: seq<string>)
    requires cfg.hasTrailingComma && FlagLeft(s, t) && Uncut(s) && NonEmpty(chunks)
    ensures WholeError(cfg, s, Joined(chunks)) != ChunksError(cfg, t, chunks)
      <==> StartsLineEnd(cfg, Joined(chunks)) || CutBeforeEmptyLine(cfg, s, chunks)
    decreases |chunks|, 0
  {
    hide Run, Ended, Joined, StartsLineEnd;
    if StartsLineEnd(cfg, Joined(chunks)) {
      FlagAtLineEnd(cfg, s, t, chunks);
    } else if chunks == [] {
      NothingJoined();
      RunNothing(cfg, s);
      FlagIdle(cfg, s, t);
    } else {
      JoinedParts(chunks);
      var o := Run(cfg, s, chunks[0]);
      assert Run(cfg, t, chunks[0]) == o by { FirstCharacter(cfg, chunks); FlagLost(cfg, s, t, chunks[0]); }
      WholeErrorSplit(cfg, s, chunks[0], Joined(chunks[1..]));
      ChunksErrorStep(cfg, t, chunks);
      RunUncut(cfg, s, chunks[0]);
      if o.Good? { ErrorsDiffer(cfg, o.state, chunks[1..]); }
    }
  }

  lemma {:induction false} FirstCharacter(cfg: Config, chunks: seq<string>)
    requires chunks != [] && NonEmpty(chunks)
    ensures StartsLineEnd(cfg, Joined(chunks)) <==> StartsLineEnd(cfg, chunks[0])
  {
    JoinedParts(chunks);
  }

  /** From the state `s` of the whole run, at a boundary. */
  lemma {:induction false} ErrorsDiffer(cfg: Config, s: State, chunks: seq<string>)
    requires cfg.hasTrailingComma && Uncut(s) && NonEmpty(chunks)
    ensures WholeError(cfg, s, Joined(chunks)) != ChunksError(cfg, Cut(s), chunks) <==>
      CutBeforeEmptyLine(cfg, s, chunks)
    decreases |chunks|, 2
  {
    hide Run, Ended, Joined, EndRecord, RunChunks;
    if s.core.newlining {
      RecordLeavesFlag(cfg, s);
      if EndRecord(cfg, s).Bad? {
        ReturnFails(cfg, s, Joined(chunks), []);
        ReturnFails(cfg, Cut(s), [], chunks);
        FailedReturn(cfg, s, chunks);
      } else if chunks == [] {
        NothingJoined();
        ReturnLast(cfg, s);
      } else {
        ReturnCut(cfg, s, chunks);
      }
    } else if chunks == [] {
      NothingJoined();
      RunNothing(cfg, s);
      assert RunChunks(cfg, s, []) == Good(s, []) by { NoChunks(cfg, s); }
    } else {
      JoinedParts(chunks);
      var o := Run(cfg, s, chunks[0]);
      WholeErrorSplit(cfg, s, chunks[0], Joined(chunks[1..]));
      ChunksErrorStep(cfg, s, chunks);
      RunUncut(cfg, s, chunks[0]);
      if o.Good? { ErrorsDiffer(cfg, o.state, chunks[1..]); }
    }
  }

  lemma {:induction false} NoChunks(cfg: Config, s: State)
    ensures RunChunks(cfg, s, []) == Good(s, [])
  {
  }

  lemma {:induction false} FailedReturn(cfg: Config, s: State, chunks: seq<string>)
    requires Sane(s) && s.core.newlining && EndRecord(cfg, s).Bad? && NonEmpty(chunks)
    ensures !CutBeforeEmptyLine(cfg, s, chunks)
  {
    if chunks != [] {
      assert chunks[0] != [];
      hide EndRecord, Step;
      RunFirst(cfg, s, chunks[0]);
      ReturnedStep(cfg, s, chunks[0][0]);
    }
  }

  function PastFirst(chunks: seq<string>): seq<string>
    requires chunks != []
  {
    if Past(chunks[0]) == [] then chunks[1..] else [Past(chunks[0])] + chunks[1..]
  }

  lemma {:induction false} PastJoined(chunks: seq<string>)
    requires chunks != [] && NonEmpty(chunks)
    ensures NonEmpty(PastFirst(chunks)) && |PastFirst(chunks)| <= |chunks|
    ensures Joined(PastFirst(chunks)) == Past(Joined(chunks))
  {
    JoinedParts(chunks);
    var rest := Past(chunks[0]);
    assert Past(Joined(chunks)) == rest + Joined(chunks[1..]);
    if rest == [] {
      assert rest + Joined(chunks[1..]) == Joined(chunks[1..]);
    } else {
      JoinedParts(PastFirst(chunks));
      assert PastFirst(chunks)[1..] == chunks[1..];
    }
  }

  /** Once its record has ended, a pending carriage return is as good as gone. */
  lemma {:induction false} PastReturn(cfg: Config, s: State, cs: string)
    requires Sane(s) && s.core.newlining && cs != [] && EndRecord(cfg, s).Good? && EndRecord(cfg, s).events == []
    ensures Run(cfg, s, cs) == Run(cfg, EndRecord(cfg, s).state, Past(cs))
  {
    ResolveReturn(cfg, s, cs);
    AfterAfter([], [], Run(cfg, EndRecord(cfg, s).state, Past(cs)));
  }

  lemma {:induction false} PastChunks(cfg: Config, s: State, t: State, chunks: seq<string>)
    requires chunks != [] && Run(cfg, s, chunks[0]) == Run(cfg, t, Past(chunks[0])) && Idle(t) && !t.split
    ensures ChunksError(cfg, s, chunks) == ChunksError(cfg, t, PastFirst(chunks))
    ensures CutBeforeEmptyLine(cfg, t, PastFirst(chunks)) <==>
      Run(cfg, s, chunks[0]).Good? && CutBeforeEmptyLine(cfg, Run(cfg, s, chunks[0]).state, chunks[1..])
  {
    hide Run, Ended, RunChunks;
    ChunksErrorStep(cfg, s, chunks);
    if Past(chunks[0]) == [] {
      RunNothing(cfg, t);
    } else {
      ChunksErrorStep(cfg, t, PastFirst(chunks));
      assert PastFirst(chunks)[1..] == chunks[1..];
    }
  }

  /** A boundary behind a carriage return that ends its record. */
  lemma {:induction false} ReturnCut(cfg: Config, s: State, chunks: seq<string>)
    requires cfg.hasTrailingComma && Uncut(s) && s.core.newlining
    requires EndRecord(cfg, s).Good? && NonEmpty(chunks) && chunks != []
    ensures WholeError(cfg, s, Joined(chunks)) != ChunksError(cfg, Cut(s), chunks) <==>
      CutBeforeEmptyLine(cfg, s, chunks)
    decreases |chunks|, 1
  {
    RecordLeavesFlag(cfg, s);
    hide Run, Ended, Joined, EndRecord, StartsLineEnd, RunChunks, PastFirst;
    var e, f := EndRecord(cfg, s).state, EndRecord(cfg, Cut(s)).state;
    JoinedParts(chunks);
    PastJoined(chunks);
    PastReturn(cfg, s, Joined(chunks));
    PastReturn(cfg, s, chunks[0]);
    PastReturn(cfg, Cut(s), chunks[0]);
    PastChunks(cfg, s, e, chunks);
    PastChunks(cfg, Cut(s), f, chunks);
    FlagMatters(cfg, e, f, PastFirst(chunks));
  }

  lemma {:induction false} ReturnLast(cfg: Config, s: State)
    requires Sane(s) && s.core.newlining && EndRecord(cfg, s).Good? && EndRecord(cfg, Cut(s)).Good?
    ensures WholeError(cfg, s, []) == ChunksError(cfg, Cut(s), []) == Ok && !CutBeforeEmptyLine(cfg, s, [])
  {
  }

  /** The error differs from that of the whole input exactly if, with trailing commas, a carriage return that ends a
      record is cut from what follows and an empty line comes next. */
  lemma {:induction false} ErrorsDifferExactly(cfg: Config, chunks: seq<string>)
    requires NonEmpty(chunks)
    ensures Fail(Parse(cfg, [Joined(chunks)])) != Fail(Parse(cfg, chunks))
      <==> cfg.hasTrailingComma && CutBeforeEmptyLine(cfg, START, chunks)
  {
    hide Run, Ended, Joined, RunChunks, CutBeforeEmptyLine;
    if cfg.hasTrailingComma {
      ErrorsDiffer(cfg, START, chunks);
      OneChunk(cfg, Joined(chunks));
      RunUncut(cfg, START, Joined(chunks));
      var o := Run(cfg, START, Joined(chunks));
      if o.Good? { EndedCut(cfg, o.state); }
    } else {
      ChunkIndependence(cfg, chunks);
    }
  }

  // ---------- written tables read back ----------

  /** A field and whether it is written in quotes. */
  type Field = (string, bool)

  predicate Special(cfg: Config, c: char) { c == cfg.comma || c == '\n' || c == '\r' || c == '"' }

  /** The separator is not used for anything else, and neither is the escape unless it is the quote. */
  predicate Usable(cfg: Config) {
    && cfg.comma != '"' && cfg.comma != '\n' && cfg.comma != '\r'
    && cfg.escape != cfg.comma && cfg.escape != '\n' && cfg.escape != '\r'
  }

  /** Inside quotes, quotes and escapes are written with an escape before them. */
  function EscapeAll(cfg: Config, f: string): string {
    if f == [] then [] else
      EscapeAll(cfg, f[..|f| - 1]) + (if Escapes(cfg, f[|f| - 1]) then [cfg.escape] else []) + [f[|f| - 1]]
  }

  function WriteField(cfg: Config, f: Field): string {
    if f.1 then ['"'] + EscapeAll(cfg, f.0) + ['"'] else f.0
  }

  /** Bare fields hold nothing that would need quotes; an escape that is not the quote is an ordinary character
      there. */
  predicate Writable(cfg: Config, f: Field) { f.1 || forall i | 0 <= i < |f.0| :: !Special(cfg, f.0[i]) }

  /** Every field followed by the separator. */
  function WriteFields(cfg: Config, row: seq<Field>): string {
    if row == [] then [] else WriteFields(cfg, row[..|row| - 1]) + WriteField(cfg, row[|row| - 1]) + [cfg.comma]
  }

  /** How a record ends; `Open` is the end of the input. */
  datatype LineEnd = LF | CRLF | CR | Open

  function EndText(e: LineEnd): string {
    match e
    case LF => ['\n']
    case CRLF => ['\r', '\n']
    case CR => ['\r']
    case Open => []
  }

  datatype Line = Line(fields: seq<Field>, end: LineEnd)

  function Last(l: Line): Field
    requires l.fields != []
  {
    l.fields[|l.fields| - 1]
  }

  /** A record: its last separator is left out unless trailing commas are in use. */
  function WriteLine(cfg: Config, l: Line): string
    requires l.fields != []
  {
    if cfg.hasTrailingComma then WriteFields(cfg, l.fields) + EndText(l.end)
    else WriteFields(cfg, l.fields[..|l.fields| - 1]) + (WriteField(cfg, Last(l)) + EndText(l.end))
  }

  /** A record of which only the line end is written. */
  predicate Blank(cfg: Config, l: Line) { !cfg.hasTrailingComma && |l.fields| == 1 && l.fields[0] == ([], false) }

  predicate Fits(cfg: Config, l: Line, cols: nat) {
    |l.fields| == cols > 0 && forall c | 0 <= c < cols :: Writable(cfg, l.fields[c])
  }

  /** A carriage return and the line feed of a blank record would be read as one line end. */
  predicate Apart(cfg: Config, l: Line, next: Line) { !(l.end == CR && Blank(cfg, next) && next.end == LF) }

  /** A table whose records have `cols` fields each; only the last may lack its line end. */
  predicate Rectangular(cfg: Config, lines: seq<Line>, cols: nat) {
    && (forall r | 0 <= r < |lines| :: Fits(cfg, lines[r], cols))
    && (forall r | 0 <= r && r + 1 < |lines| :: !lines[r].end.Open? && Apart(cfg, lines[r], lines[r + 1]))
  }

  function WriteTable(cfg: Config, lines: seq<Line>, cols: nat): string
    requires Rectangular(cfg, lines, cols)
    decreases |lines|
  {
    if lines == [] then [] else
      assert forall r | 0 <= r < |lines[1..]| :: lines[1..][r] == lines[r + 1];
      WriteLine(cfg, lines[0]) + WriteTable(cfg, lines[1..], cols)
  }

  function RowEvents(row: seq<Field>, r: nat): (es: seq<Event>)
    ensures |es| == |row| && forall c | 0 <= c < |row| :: es[c] == Event(c, r, row[c].0)
  {
    seq(|row|, c requires 0 <= c < |row| => Event(c, r, row[c].0))
  }

  /** The fields of a table, record by record, numbered from `r`. */
  function TableEvents(lines: seq<Line>, r: nat): seq<Event>
    decreases |lines|
  {
    if lines == [] then [] else RowEvents(lines[0].fields, r) + TableEvents(lines[1..], r + 1)
  }

  /** A whole input from state `s` on, its end included. */
  function Parsed(cfg: Config, s: State, cs: string): Outcome {
    var o := Run(cfg, s, cs);
    if o.Bad? then o else After(o.events, Ended(cfg, o.state))
  }

  lemma {:induction false} ParsedSplit(cfg: Config, s: State, a: string, b: string)
    requires Run(cfg, s, a).Good?
    ensures Parsed(cfg, s, a + b) == After(Run(cfg, s, a).events, Parsed(cfg, Run(cfg, s, a).state, b))
  {
    hide Run, Ended;
    RunSplit(cfg, s, a, b);
    var o := Run(cfg, s, a);
    var p := Run(cfg, o.state, b);
    if p.Good? { AfterAfter(o.events, p.events, Ended(cfg, p.state)); }
  }

  /** A state in the middle of a field, with nothing pending. */
  function Within(s: State, field: string, quoted: bool): State {
    State(s.core.(field := field, quoted := quoted, afterRecord := false), false, s.split)
  }

  lemma {:induction false} RunOne(cfg: Config, s: State, c: char)
    requires Idle(s)
    ensures Run(cfg, s, [c]) == Plain(cfg, s, c)
  {
    RunPlain(cfg, s, [c]);
    var o := Plain(cfg, s, c);
    if o.Good? {
      assert [c][1..] == [];
      RunNothing(cfg, o.state);
    }
  }

  /** Appending one more character to a run. */
  lemma {:induction false} RunSnoc(cfg: Config, s: State, cs: string, c: char, t: State, events: seq<Event>)
    requires Run(cfg, s, cs) == Good(t, events) && Idle(t)
    ensures Run(cfg, s, cs + [c]) == After(events, Plain(cfg, t, c))
  {
    hide Run, Plain;
    RunSplit(cfg, s, cs, [c]);
    RunOne(cfg, t, c);
  }

  lemma {:induction false} QuotedText(cfg: Config, s: State, f: string)
    requires Usable(cfg) && Idle(s) && s.core.field == [] && !s.core.quoted
    ensures Run(cfg, Within(s, [], true), EscapeAll(cfg, f)) == Good(Within(s, f, true), [])
  {
    var start := Within(s, [], true);
    if f == [] {
      RunNothing(cfg, start);
    } else {
      var n := |f| - 1;
      var c, before := f[n], EscapeAll(cfg, f[..n]);
      QuotedText(cfg, s, f[..n]);
      var t := Within(s, f[..n], true);
      assert f == f[..n] + [c];
      if Escapes(cfg, c) {
        hide Run;
        assert EscapeAll(cfg, f) == before + [cfg.escape, c];
        RunSplit(cfg, start, before, [cfg.escape, c]);
        RunEscape(cfg, t, [cfg.escape, c]);
        assert [cfg.escape, c][2..] == [];
        RunNothing(cfg, Unescaped(cfg, t, c));
      } else {
        hide Run;
        assert EscapeAll(cfg, f) == before + [c];
        RunSnoc(cfg, start, before, c, t, []);
      }
    }
  }

  /** In quotes, an escape before a character that needs none is kept. */
  lemma {:induction false} LoneEscape(cfg: Config, s: State, f: string, c: char)
    requires Usable(cfg) && Idle(s) && cfg.escape != '"' && c != '"' && c != cfg.escape
    ensures Run(cfg, Within(s, f, true), [cfg.escape, c]) == Good(Within(s, f + [cfg.escape, c], true), [])
  {
    var t, cs := Within(s, f, true), [cfg.escape, c];
    RunEscape(cfg, t, cs);
    assert cs[1..] == [c] && f + [cfg.escape] + [c] == f + cs;
    hide Run;
    RunOne(cfg, Unescaped(cfg, t, c), c);
  }

  /** A quote inside a bare field opens quotes there, and the field goes on. */
  lemma {:induction false} QuoteInside(cfg: Config, s: State, f: string)
    requires Usable(cfg) && Idle(s)
    ensures Run(cfg, Within(s, f, false), ['"']) == Good(Within(s, f, true), [])
  {
    RunOne(cfg, Within(s, f, false), '"');
  }

  /** A character right after a closing quote is an ordinary one. */
  lemma {:induction false} TextAfterQuote(cfg: Config, s: State, f: string, c: char)
    requires Usable(cfg) && Idle(s) && !Special(cfg, c)
    ensures Run(cfg, Within(s, f, true), ['"', c]) == Good(Within(s, f + [c], false), [])
  {
    var t, cs := Within(s, f, true), ['"', c];
    assert cs[1..] == [c];
    if cfg.escape == '"' {
      RunEscape(cfg, t, cs);
      hide Run;
      RunOne(cfg, Unescaped(cfg, t, c), c);
    } else {
      RunPlain(cfg, t, cs);
      hide Run;
      AfterAfter([], [], Run(cfg, Within(s, f, false), [c]));
      RunOne(cfg, Within(s, f, false), c);
    }
  }

  lemma {:induction false} BareText(cfg: Config, s: State, f: string)
    requires Idle(s) && s.core.field == [] && !s.core.quoted && Writable(cfg, (f, false))
    ensures Run(cfg, s, f) == Good(if f == [] then s else Within(s, f, false), [])
  {
    if f == [] {
      RunNothing(cfg, s);
    } else {
      var n := |f| - 1;
      BareText(cfg, s, f[..n]);
      assert f == f[..n] + [f[n]];
      hide Run;
      RunSnoc(cfg, s, f[..n], f[n], if n == 0 then s else Within(s, f[..n], false), []);
    }
  }

  /** The state after a written field. */
  function Behind(s: State, f: Field): State { if f.1 || f.0 != [] then Within(s, f.0, false) else s }

  /** What may follow a field: a separator, a line end, or the end of the input if no quote is left pending. */
  predicate Follows(cfg: Config, f: Field, rest: string) {
    if rest == [] then !(f.1 && cfg.escape == '"')
    else rest[0] == cfg.comma || rest[0] == '\n' || rest[0] == '\r'
  }

  /** A written field and what follows it: the field ends there and nothing of it is pending. */
  lemma {:induction false} FieldThen(cfg: Config, s: State, f: Field, rest: string)
    requires Usable(cfg) && Idle(s) && s.core.field == [] && !s.core.quoted && Writable(cfg, f) && Follows(cfg, f, rest)
    ensures Run(cfg, s, WriteField(cfg, f) + rest) == Run(cfg, Behind(s, f), rest)
  {
    if f.1 {
      OpenQuote(cfg, s, f.0, ['"'] + rest);
      var open, t := Within(s, [], true), Within(s, f.0, true);
      CloseQuote(cfg, t, rest);
      hide Run, EscapeAll;
      assert WriteField(cfg, f) + rest == ['"'] + EscapeAll(cfg, f.0) + (['"'] + rest);
    } else {
      BareText(cfg, s, f.0);
      hide Run;
      RunSplit(cfg, s, f.0, rest);
      AfterAfter([], [], Run(cfg, Behind(s, f), rest));
    }
  }

  lemma {:induction false} OpenQuote(cfg: Config, s: State, f: string, rest: string)
    requires Usable(cfg) && Idle(s) && s.core.field == [] && !s.core.quoted
    ensures Run(cfg, s, ['"'] + EscapeAll(cfg, f) + rest) == Run(cfg, Within(s, f, true), rest)
  {
    var open := Within(s, [], true);
    RunOne(cfg, s, '"');
    QuotedText(cfg, s, f);
    hide Run, EscapeAll;
    RunSplit(cfg, s, ['"'] + EscapeAll(cfg, f), rest);
    RunSplit(cfg, s, ['"'], EscapeAll(cfg, f));
    AfterAfter([], [], Run(cfg, open, EscapeAll(cfg, f)));
    AfterAfter([], [], Run(cfg, Within(s, f, true), rest));
  }

  lemma {:induction false} CloseQuote(cfg: Config, t: State, rest: string)
    requires Usable(cfg) && Idle(t) && t.core.quoted && Follows(cfg, (t.core.field, true), rest)
    ensures Run(cfg, t, ['"'] + rest) == Run(cfg, Within(t, t.core.field, false), rest)
  {
    var u, cs := Within(t, t.core.field, false), ['"'] + rest;
    assert cs[1..] == rest;
    if cfg.escape == '"' {
      RunEscape(cfg, t, cs);
      hide Run;
      QuoteClosed(cfg, t, rest);
    } else {
      RunPlain(cfg, t, cs);
      AfterAfter([], [], Run(cfg, u, rest));
    }
  }

  /** Leaving the quotes is remembered once the next character has been read. */
  lemma {:induction false} QuoteClosed(cfg: Config, t: State, rest: string)
    requires Usable(cfg) && Idle(t) && t.core.quoted && Follows(cfg, (t.core.field, true), rest) && rest != []
    requires cfg.escape == '"'
    ensures Run(cfg, Unescaped(cfg, t, rest[0]), rest) == Run(cfg, Within(t, t.core.field, false), rest)
  {
  }

  /** The start of record `r` of a table with `cols` columns. */
  function RowStart(r: nat, cols: nat): State {
    State(Core([], 0, r, if r == 0 then 0 else cols, r > 0, false, r > 0, false, false), false, false)
  }

  /** After `c` fields, each with its separator. */
  function AfterFields(s: State, c: nat): State {
    if c == 0 then s else State(s.core.(col := c, afterRecord := false), true, false)
  }

  /** The separator that ends a field. */
  lemma CommaEnds(cfg: Config, r: nat, cols: nat, n: nat, f: Field)
    requires Usable(cfg)
    ensures Plain(cfg, Behind(AfterFields(RowStart(r, cols), n), f), cfg.comma) ==
      Good(AfterFields(RowStart(r, cols), n + 1), [Event(n, r, f.0)])
  {
  }

  lemma StartIdle(r: nat, cols: nat, n: nat)
    ensures var mid := AfterFields(RowStart(r, cols), n);
      Idle(mid) && mid.core.field == [] && !mid.core.quoted && !mid.split
  {
  }

  lemma BehindIdle(s: State, f: Field)
    requires Idle(s) && !s.core.quoted
    ensures Idle(Behind(s, f)) && !Behind(s, f).core.quoted
  {
  }

  lemma EventsSnoc(row: seq<Field>, r: nat)
    requires row != []
    ensures RowEvents(row, r) == RowEvents(row[..|row| - 1], r) + [Event(|row| - 1, r, row[|row| - 1].0)]
  {
  }

  lemma {:induction false} FieldsRead(cfg: Config, row: seq<Field>, r: nat, cols: nat)
    requires Usable(cfg) && forall c | 0 <= c < |row| :: Writable(cfg, row[c])
    ensures Run(cfg, RowStart(r, cols), WriteFields(cfg, row)) ==
      Good(AfterFields(RowStart(r, cols), |row|), RowEvents(row, r))
  {
    var s := RowStart(r, cols);
    if row == [] {
      RunNothing(cfg, s);
    } else {
      hide Run, Plain, WriteField, Writable, EscapeAll, Behind, Usable, AfterFields, RowStart, RowEvents;
      var n := |row| - 1;
      var f, mid := row[n], AfterFields(s, n);
      FieldsRead(cfg, row[..n], r, cols);
      StartIdle(r, cols, n);
      BehindIdle(mid, f);
      FieldThen(cfg, mid, f, [cfg.comma]);
      RunOne(cfg, Behind(mid, f), cfg.comma);
      CommaEnds(cfg, r, cols, n, f);
      var text := WriteField(cfg, f) + [cfg.comma];
      assert WriteFields(cfg, row) == WriteFields(cfg, row[..n]) + text;
      RunSplit(cfg, s, WriteFields(cfg, row[..n]), text);
      EventsSnoc(row, r);
    }
  }

  /** A line end after which no line feed comes by chance. */
  predicate Distinct(e: LineEnd, rest: string) { e == CR ==> rest == [] || rest[0] != '\n' }

  /** Each of the three line ends ends the record at once or with the next character. */
  lemma LineEndRead(cfg: Config, s: State, e: LineEnd, rest: string)
    requires Usable(cfg) && Idle(s) && !s.core.quoted && !s.split && !e.Open? && Distinct(e, rest)
    requires EndRecord(cfg, s).Good?
    ensures var o := EndRecord(cfg, s); Parsed(cfg, s, EndText(e) + rest) == After(o.events, Parsed(cfg, o.state, rest))
  {
    var o, cs := EndRecord(cfg, s), EndText(e) + rest;
    if e == LF {
      assert cs[1..] == rest;
      RunPlain(cfg, s, cs);
      EndedAfter(cfg, o.events, Run(cfg, o.state, rest));
    } else if e == CR && rest == [] {
      assert cs == ['\r'];
      RunOne(cfg, s, '\r');
      RunNothing(cfg, o.state);
    } else {
      assert cs[1..] == EndText(e)[1..] + rest && cs[2..] == if e == CR then rest[1..] else rest;
      RunReturn(cfg, s, cs);
      assert (if cs[1] == '\n' then cs[2..] else cs[1..]) == rest;
      EndedAfter(cfg, o.events, Run(cfg, o.state, rest));
    }
  }

  lemma EndedAfter(cfg: Config, events: seq<Event>, p: Outcome)
    ensures var o := After(events, p);
      (if o.Bad? then o else After(o.events, Ended(cfg, o.state))) ==
        After(events, if p.Bad? then p else After(p.events, Ended(cfg, p.state)))
  {
    if p.Good? { AfterAfter(events, p.events, Ended(cfg, p.state)); }
  }

  /** Where a record's last field or trailing comma leaves the parser, and the fields reported by then. */
  function LineState(cfg: Config, l: Line, r: nat, cols: nat): State
    requires l.fields != []
  {
    var s, n := RowStart(r, cols), |l.fields| - 1;
    if cfg.hasTrailingComma then AfterFields(s, n + 1) else Behind(AfterFields(s, n), Last(l))
  }

  function LineFields(cfg: Config, l: Line): seq<Field>
    requires l.fields != []
  {
    if cfg.hasTrailingComma then l.fields else l.fields[..|l.fields| - 1]
  }

  /** All of a record but its line end. */
  lemma LineRead(cfg: Config, l: Line, r: nat, cols: nat, rest: string)
    requires Usable(cfg) && Fits(cfg, l, |l.fields|)
    requires cfg.hasTrailingComma || Follows(cfg, Last(l), EndText(l.end) + rest)
    ensures Parsed(cfg, RowStart(r, cols), WriteLine(cfg, l) + rest) ==
      After(RowEvents(LineFields(cfg, l), r), Parsed(cfg, LineState(cfg, l, r, cols), EndText(l.end) + rest))
  {
    hide Run, WriteFields, WriteField, Writable, EscapeAll, Behind, Ended, RowEvents, Follows, AfterFields, RowStart,
      EndText;
    var s, follow := RowStart(r, cols), EndText(l.end) + rest;
    if cfg.hasTrailingComma {
      FieldsRead(cfg, l.fields, r, cols);
      assert WriteLine(cfg, l) + rest == WriteFields(cfg, l.fields) + follow;
      ParsedSplit(cfg, s, WriteFields(cfg, l.fields), follow);
    } else {
      var n := |l.fields| - 1;
      var before, last := l.fields[..n], WriteField(cfg, Last(l));
      FieldsRead(cfg, before, r, cols);
      StartIdle(r, cols, n);
      FieldThen(cfg, AfterFields(s, n), Last(l), follow);
      assert WriteLine(cfg, l) + rest == WriteFields(cfg, before) + (last + follow);
      ParsedSplit(cfg, s, WriteFields(cfg, before), last + follow);
    }
  }

  /** The end of a record's text is the end of the record. */
  lemma LineEnds(cfg: Config, l: Line, r: nat, cols: nat)
    requires l.fields != []
    ensures var t := LineState(cfg, l, r, cols); Idle(t) && !t.core.quoted && !t.split
    ensures cols == |l.fields| ==>
      EndRecord(cfg, LineState(cfg, l, r, cols)) == Good(RowStart(r + 1, |l.fields|),
        if cfg.hasTrailingComma then [] else [Event(|l.fields| - 1, r, Last(l).0)])
    ensures cols != |l.fields| && r > 0 ==> EndRecord(cfg, LineState(cfg, l, r, cols)) == Bad([], InconsistentColumns)
    ensures LineState(cfg, l, r, cols).core.afterRecord <==> Blank(cfg, l) && r > 0
  {
  }

  lemma LineEvents(cfg: Config, l: Line, r: nat)
    requires l.fields != []
    ensures RowEvents(l.fields, r) == RowEvents(LineFields(cfg, l), r)
      + if cfg.hasTrailingComma then [] else [Event(|l.fields| - 1, r, Last(l).0)]
  {
    EventsSnoc(l.fields, r);
  }

  /** A record with a line end is reported field for field, and the next one starts afresh. */
  lemma RowRead(cfg: Config, l: Line, r: nat, rest: string)
    requires Usable(cfg) && Fits(cfg, l, |l.fields|) && !l.end.Open? && Distinct(l.end, rest)
    ensures Parsed(cfg, RowStart(r, |l.fields|), WriteLine(cfg, l) + rest) ==
      After(RowEvents(l.fields, r), Parsed(cfg, RowStart(r + 1, |l.fields|), rest))
  {
    hide Run, WriteLine, Writable, Behind, Ended, RowEvents, AfterFields, RowStart, LineState, EndRecord, Parsed;
    var t := LineState(cfg, l, r, |l.fields|);
    LineRead(cfg, l, r, |l.fields|, rest);
    LineEnds(cfg, l, r, |l.fields|);
    LineEvents(cfg, l, r);
    LineEndRead(cfg, t, l.end, rest);
    AfterAfter(RowEvents(LineFields(cfg, l), r), EndRecord(cfg, t).events,
               Parsed(cfg, RowStart(r + 1, |l.fields|), rest));
  }

  /** What a last record without a line end must not be: a quoted field whose closing quote might be an escape, or
      nothing at all after other records. */
  predicate ReadsBack(cfg: Config, last: Line, first: bool)
    requires last.fields != []
  {
    || !last.end.Open? || cfg.hasTrailingComma
    || (!(Last(last).1 && cfg.escape == '"') && !(Blank(cfg, last) && !first))
  }

  /** The last record of an input that stops there. */
  lemma OpenRead(cfg: Config, l: Line, r: nat)
    requires Usable(cfg) && Fits(cfg, l, |l.fields|) && l.end.Open?
    ensures var o := Parsed(cfg, RowStart(r, |l.fields|), WriteLine(cfg, l));
      Fail(o) == Ok && o.events == RowEvents(l.fields, r) <==> ReadsBack(cfg, l, r == 0)
  {
    hide Run, WriteFields, WriteField, Writable, EscapeAll, Behind, RowEvents, AfterFields, RowStart, LineState,
      EndRecord;
    var t := LineState(cfg, l, r, |l.fields|);
    assert WriteLine(cfg, l) + [] == WriteLine(cfg, l) && EndText(l.end) + [] == [];
    if cfg.hasTrailingComma || !(Last(l).1 && cfg.escape == '"') {
      LineRead(cfg, l, r, |l.fields|, []);
      LineEnds(cfg, l, r, |l.fields|);
      LineEvents(cfg, l, r);
      RunNothing(cfg, t);
      RunOne(cfg, t, '\n');
      NewlineIs(cfg, t, '\n');
    } else {
      QuoteLeftOpen(cfg, l, r);
    }
  }

  /** The closing quote could be the first half of an escaped one; `finish` takes it for that. */
  lemma QuoteLeftOpen(cfg: Config, l: Line, r: nat)
    requires Usable(cfg) && Fits(cfg, l, |l.fields|) && l.end.Open?
    requires !cfg.hasTrailingComma && Last(l).1 && cfg.escape == '"'
    ensures Fail(Parsed(cfg, RowStart(r, |l.fields|), WriteLine(cfg, l))) == QuoteNotClosed
  {
    hide Run, WriteFields, EscapeAll, Writable, RowEvents, AfterFields, RowStart, Plain;
    var s, n := RowStart(r, |l.fields|), |l.fields| - 1;
    var mid, f, last := AfterFields(s, n), Last(l).0, WriteField(cfg, Last(l));
    FieldsRead(cfg, l.fields[..n], r, |l.fields|);
    StartIdle(r, |l.fields|, n);
    OpenQuote(cfg, mid, f, ['"']);
    RunOne(cfg, Within(mid, f, true), '"');
    QuoteIs(cfg, Within(mid, f, true));
    assert last == ['"'] + EscapeAll(cfg, f) + ['"'];
    assert WriteLine(cfg, l) == WriteFields(cfg, l.fields[..n]) + last;
    ParsedSplit(cfg, s, WriteFields(cfg, l.fields[..n]), last);
  }

  /** The text of a record starts with a line feed only if the record is blank. */
  lemma LineStarts(cfg: Config, l: Line)
    requires Usable(cfg) && Fits(cfg, l, |l.fields|)
    ensures WriteLine(cfg, l) != [] && WriteLine(cfg, l)[0] == '\n' ==> Blank(cfg, l) && l.end == LF
    ensures WriteLine(cfg, l) == [] ==> l.end.Open?
  {
    FieldsStart(cfg, l.fields);
    FieldsStart(cfg, l.fields[..|l.fields| - 1]);
    hide WriteFields;
    var f := Last(l);
    assert Writable(cfg, f);
  }

  lemma {:induction false} FieldsStart(cfg: Config, row: seq<Field>)
    requires Usable(cfg) && forall c | 0 <= c < |row| :: Writable(cfg, row[c])
    ensures WriteFields(cfg, row) == [] <==> row == []
    ensures row != [] ==> WriteFields(cfg, row)[0] != '\n'
  {
    if row != [] {
      var n := |row| - 1;
      FieldsStart(cfg, row[..n]);
      hide EscapeAll;
      assert Writable(cfg, row[n]);
    }
  }

  /** What follows a record does not start with a line feed that its carriage return would swallow. */
  lemma {:induction false} RestApart(cfg: Config, lines: seq<Line>, cols: nat)
    requires Usable(cfg) && lines != [] && Rectangular(cfg, lines, cols) && Rectangular(cfg, lines[1..], cols)
    ensures Distinct(lines[0].end, WriteTable(cfg, lines[1..], cols))
  {
    hide WriteLine, Fits;
    var rest := lines[1..];
    if rest != [] {
      assert rest[0] == lines[1] && Apart(cfg, lines[0], lines[0 + 1]);
      assert Fits(cfg, rest[0], cols);
      FieldCount(cfg, rest[0], cols);
      LineStarts(cfg, rest[0]);
      RestRectangular(cfg, rest, cols);
      if WriteLine(cfg, rest[0]) == [] {
        assert rest[1..] == [];
      }
    }
  }

  lemma FieldCount(cfg: Config, l: Line, cols: nat)
    requires Fits(cfg, l, cols)
    ensures |l.fields| == cols > 0
  {
  }

  lemma RestRectangular(cfg: Config, lines: seq<Line>, cols: nat)
    requires lines != [] && Rectangular(cfg, lines, cols)
    ensures Rectangular(cfg, lines[1..], cols) && Fits(cfg, lines[0], cols)
    ensures |lines| > 1 ==> !lines[0].end.Open?
  {
    hide Fits, Apart;
    var rest := lines[1..];
    assert forall r | 0 <= r < |rest| :: rest[r] == lines[r + 1];
    assert |lines| > 1 ==> !lines[0].end.Open? && Apart(cfg, lines[0], lines[0 + 1]);
  }

  lemma AfterReads(events: seq<Event>, o: Outcome, more: seq<Event>)
    ensures Fail(After(events, o)) == Fail(o) && (After(events, o).events == events + more <==> o.events == more)
  {
    assert events + o.events == events + more ==>
      o.events == (events + o.events)[|events|..] == (events + more)[|events|..] == more;
  }

  lemma {:induction false} RowsRead(cfg: Config, lines: seq<Line>, cols: nat, r: nat)
    requires Usable(cfg) && lines != [] && Rectangular(cfg, lines, cols)
    ensures lines[|lines| - 1].fields != []
    ensures var o := Parsed(cfg, RowStart(r, cols), WriteTable(cfg, lines, cols));
      Fail(o) == Ok && o.events == TableEvents(lines, r) <==> ReadsBack(cfg, lines[|lines| - 1], r == 0 && |lines| == 1)
    decreases |lines|
  {
    hide Parsed, WriteLine, Writable, RowEvents, RowStart, Rectangular, Fits, Apart;
    RestRectangular(cfg, lines, cols);
    FieldCount(cfg, lines[0], cols);
    var l, rest := lines[0], lines[1..];
    var tail := WriteTable(cfg, rest, cols);
    if |lines| == 1 && l.end.Open? {
      assert rest == [] && WriteLine(cfg, l) + tail == WriteLine(cfg, l);
      assert RowEvents(l.fields, r) + [] == RowEvents(l.fields, r);
      OpenRead(cfg, l, r);
    } else {
      RestApart(cfg, lines, cols);
      RowRead(cfg, l, r, tail);
      AfterReads(RowEvents(l.fields, r), Parsed(cfg, RowStart(r + 1, cols), tail), TableEvents(rest, r + 1));
      if rest == [] {
        NothingLeft(cfg, r + 1, cols);
      } else {
        RowsRead(cfg, rest, cols, r + 1);
      }
    }
  }

  lemma NothingLeft(cfg: Config, r: nat, cols: nat)
    requires r > 0
    ensures Parsed(cfg, RowStart(r, cols), []) == Good(RowStart(r, cols), [])
  {
  }

  /** A written table, however it is cut into chunks, reads back field for field without an error exactly if its last
      record has a line end or a trailing comma, or is neither a quoted field closed by what could be an escape nor
      empty after other records. */
  lemma {:induction false} TableRoundTrip(cfg: Config, lines: seq<Line>, cols: nat, chunks: seq<string>)
    requires Usable(cfg) && lines != [] && Rectangular(cfg, lines, cols)
    requires NonEmpty(chunks) && Joined(chunks) == WriteTable(cfg, lines, cols)
    ensures lines[|lines| - 1].fields != []
    ensures Fail(Parse(cfg, chunks)) == Ok && Parse(cfg, chunks).events == TableEvents(lines, 0)
      <==> ReadsBack(cfg, lines[|lines| - 1], |lines| == 1)
  {
    hide Run, WriteTable, Ended, ReadsBack, TableEvents, Rectangular;
    RowsRead(cfg, lines, cols, 0);
    ParseParsed(cfg, Joined(chunks));
    if cfg.hasTrailingComma {
      ChunksWithTrailingComma(cfg, chunks);
    } else {
      ChunkIndependence(cfg, chunks);
    }
  }

  // ---------- records of another length ----------

  /** A record end that fails does so with any of the three line ends. */
  lemma LineEndFails(cfg: Config, s: State, e: LineEnd, rest: string)
    requires Usable(cfg) && Idle(s) && !s.core.quoted && !s.split && !e.Open? && EndRecord(cfg, s).Bad?
    ensures Parsed(cfg, s, EndText(e) + rest) == EndRecord(cfg, s)
  {
    var cs := EndText(e) + rest;
    if e == LF {
      RunPlain(cfg, s, cs);
    } else if cs[1..] == [] {
      assert cs == ['\r'];
      RunOne(cfg, s, '\r');
    } else {
      RunReturn(cfg, s, cs);
    }
  }

  /** The records of a table, each with its line end, read from its start; `rest` is what follows. */
  lemma {:induction false} RowsThen(cfg: Config, lines: seq<Line>, cols: nat, r: nat, rest: string)
    requires Usable(cfg) && Rectangular(cfg, lines, cols) && (lines != [] ==> !lines[|lines| - 1].end.Open?)
    requires lines != [] ==> Distinct(lines[|lines| - 1].end, rest)
    ensures Parsed(cfg, RowStart(r, cols), WriteTable(cfg, lines, cols) + rest) ==
      After(TableEvents(lines, r), Parsed(cfg, RowStart(r + |lines|, cols), rest))
    decreases |lines|
  {
    hide Parsed, WriteLine, Writable, RowEvents, RowStart, Rectangular, Fits, Apart;
    if lines == [] {
      assert [] + rest == rest;
      AfterAfter([], [], Parsed(cfg, RowStart(r, cols), rest));
    } else {
      RestRectangular(cfg, lines, cols);
      FieldCount(cfg, lines[0], cols);
      var l, tail := lines[0], lines[1..];
      var text := WriteTable(cfg, tail, cols) + rest;
      assert WriteTable(cfg, lines, cols) + rest == WriteLine(cfg, l) + text;
      if tail == [] {
        assert text == rest;
      } else {
        RestApart(cfg, lines, cols);
        TableText(cfg, tail, cols);
      }
      RowRead(cfg, l, r, text);
      RowsThen(cfg, tail, cols, r + 1, rest);
      AfterAfter(RowEvents(l.fields, r), TableEvents(tail, r + 1), Parsed(cfg, RowStart(r + |lines|, cols), rest));
    }
  }

  lemma {:induction false} TableText(cfg: Config, lines: seq<Line>, cols: nat)
    requires Usable(cfg) && lines != [] && Rectangular(cfg, lines, cols) && !lines[|lines| - 1].end.Open?
    ensures WriteTable(cfg, lines, cols) != []
  {
    RestRectangular(cfg, lines, cols);
    FieldCount(cfg, lines[0], cols);
    LineStarts(cfg, lines[0]);
  }

  /** After records of `cols` fields each, a record with another number of fields fails at its line end, whatever
      follows and however the input is cut: its fields read by then are reported, and nothing after it. */
  lemma {:induction false} RaggedFails(cfg: Config, lines: seq<Line>, cols: nat, bad: Line, rest: string,
                                       chunks: seq<string>)
    requires Usable(cfg) && lines != [] && Rectangular(cfg, lines, cols) && !lines[|lines| - 1].end.Open?
    requires Fits(cfg, bad, |bad.fields|) && |bad.fields| != cols && !bad.end.Open?
    requires Apart(cfg, lines[|lines| - 1], bad)
    requires NonEmpty(chunks) && Joined(chunks) == WriteTable(cfg, lines, cols) + (WriteLine(cfg, bad) + rest)
    ensures Fail(Parse(cfg, chunks)) == InconsistentColumns
    ensures Parse(cfg, chunks).events == TableEvents(lines, 0)
      + RowEvents(if cfg.hasTrailingComma then bad.fields else bad.fields[..|bad.fields| - 1], |lines|)
  {
    var text, m := WriteLine(cfg, bad) + rest, |lines|;
    LineStarts(cfg, bad);
    EndTextFollows(cfg, bad, rest);
    hide Run, WriteTable, WriteLine, Ended, EndRecord, Parsed, TableEvents, Rectangular, RowEvents, LineState, Follows,
      Apart, Blank, Writable, RowStart, EndText;
    RowsThen(cfg, lines, cols, 0, text) by {
      hide *;
      LastDistinct(cfg, lines[m - 1].end, bad, text, lines[m - 1]);
    }
    LineRead(cfg, bad, m, cols, rest);
    LineEnds(cfg, bad, m, cols);
    LineEndFails(cfg, LineState(cfg, bad, m, cols), bad.end, rest);
    ParseParsed(cfg, Joined(chunks));
    if cfg.hasTrailingComma {
      ChunksWithTrailingComma(cfg, chunks);
    } else {
      ChunkIndependence(cfg, chunks);
    }
  }

  /** With trailing commas, a record whose last field has no comma behind it fails at its line end. */
  lemma {:induction false} MissingCommaFails(cfg: Config, lines: seq<Line>, cols: nat, before: seq<Field>,
                                             last: Field, e: LineEnd, rest: string)
    requires Usable(cfg) && cfg.hasTrailingComma && Rectangular(cfg, lines, cols)
    requires lines != [] ==> lines[|lines| - 1].end != Open
    requires (forall c | 0 <= c < |before| :: Writable(cfg, before[c])) && Writable(cfg, last) && !e.Open?
    requires last.1 || last.0 != []
    ensures var text := WriteFields(cfg, before) + (WriteField(cfg, last) + (EndText(e) + rest));
      && Fail(Parse(cfg, [WriteTable(cfg, lines, cols) + text])) == NoTrailingComma
      && Parse(cfg, [WriteTable(cfg, lines, cols) + text]).events == TableEvents(lines, 0) + RowEvents(before, |lines|)
  {
    hide *;
    var m, n, tail := |lines|, |before|, EndText(e) + rest;
    var s := RowStart(m, cols);
    var mid, field := AfterFields(s, n), WriteField(cfg, last);
    var text := WriteFields(cfg, before) + (field + tail);
    FieldsRead(cfg, before, m, cols);
    StartIdle(m, cols, n);
    EndFollows(cfg, last, e, rest);
    FieldThen(cfg, mid, last, tail);
    BehindIdle(mid, last);
    NoComma(cfg, mid, last);
    LineEndFails(cfg, Behind(mid, last), e, rest);
    SameRun(cfg, mid, field + tail, Behind(mid, last), tail);
    FieldsStart(cfg, before);
    FieldStarts(cfg, last);
    ParsedSplit(cfg, s, WriteFields(cfg, before), field + tail);
    assert text != [] && text[0] != '\n';
    NoLineFeed(lines, text);
    RowsThen(cfg, lines, cols, 0, text);
    StartIs(cols);
    ParseParsed(cfg, WriteTable(cfg, lines, cols) + text);
    AfterFails(TableEvents(lines, 0), RowEvents(before, m), NoTrailingComma);
  }

  lemma EndFollows(cfg: Config, f: Field, e: LineEnd, rest: string)
    requires !e.Open?
    ensures Follows(cfg, f, EndText(e) + rest)
  {
  }

  lemma NoComma(cfg: Config, s: State, f: Field)
    requires cfg.hasTrailingComma && Idle(s) && !s.core.quoted && !s.split && (f.1 || f.0 != [])
    ensures !Behind(s, f).split && EndRecord(cfg, Behind(s, f)) == Bad([], NoTrailingComma)
  {
  }

  lemma {:induction false} SameRun(cfg: Config, s: State, a: string, t: State, b: string)
    requires Run(cfg, s, a) == Run(cfg, t, b)
    ensures Parsed(cfg, s, a) == Parsed(cfg, t, b)
  {
    hide Run, Ended;
  }

  lemma NoLineFeed(lines: seq<Line>, text: string)
    requires text != [] && text[0] != '\n'
    ensures lines != [] ==> Distinct(lines[|lines| - 1].end, text)
  {
  }

  lemma StartIs(cols: nat)
    ensures RowStart(0, cols) == START && !RowStart(0, cols).split
  {
  }

  lemma AfterFails(a: seq<Event>, b: seq<Event>, error: Error)
    ensures After(a, After(b, Bad([], error))) == Bad(a + b, error) && Fail(Bad(a + b, error)) == error
  {
  }

  lemma FieldStarts(cfg: Config, f: Field)
    requires Usable(cfg) && Writable(cfg, f) && (f.1 || f.0 != [])
    ensures WriteField(cfg, f) != [] && WriteField(cfg, f)[0] != '\n'
  {
    hide EscapeAll;
  }

  /** An input that ends inside quotes fails. */
  lemma {:induction false} OpenQuoteFails(cfg: Config, lines: seq<Line>, cols: nat, before: seq<Field>, f: string)
    requires Usable(cfg) && Rectangular(cfg, lines, cols) && (lines != [] ==> lines[|lines| - 1].end != Open)
    requires forall c | 0 <= c < |before| :: Writable(cfg, before[c])
    ensures var text := WriteFields(cfg, before) + (['"'] + EscapeAll(cfg, f));
      && Fail(Parse(cfg, [WriteTable(cfg, lines, cols) + text])) == QuoteNotClosed
      && Parse(cfg, [WriteTable(cfg, lines, cols) + text]).events == TableEvents(lines, 0) + RowEvents(before, |lines|)
  {
    hide *;
    var m, n, quote := |lines|, |before|, ['"'] + EscapeAll(cfg, f);
    var s := RowStart(m, cols);
    var mid, text := AfterFields(s, n), WriteFields(cfg, before) + quote;
    FieldsRead(cfg, before, m, cols);
    StartIdle(m, cols, n);
    OpenQuote(cfg, mid, f, []);
    LeftOpen(cfg, Within(mid, f, true), mid, f);
    assert quote + [] == quote;
    SameRun(cfg, mid, quote, Within(mid, f, true), []);
    FieldsStart(cfg, before);
    ParsedSplit(cfg, s, WriteFields(cfg, before), quote);
    assert text != [] && text[0] != '\n';
    NoLineFeed(lines, text);
    RowsThen(cfg, lines, cols, 0, text);
    StartIs(cols);
    ParseParsed(cfg, WriteTable(cfg, lines, cols) + text);
    AfterFails(TableEvents(lines, 0), RowEvents(before, m), QuoteNotClosed);
  }

  lemma LeftOpen(cfg: Config, t: State, s: State, f: string)
    requires t == Within(s, f, true)
    ensures Parsed(cfg, t, []) == Bad([], QuoteNotClosed)
  {
  }

  lemma EndTextFollows(cfg: Config, l: Line, rest: string)
    requires l.fields != [] && !l.end.Open?
    ensures Follows(cfg, Last(l), EndText(l.end) + rest)
  {
  }

  lemma LastDistinct(cfg: Config, e: LineEnd, bad: Line, text: string, last: Line)
    requires Usable(cfg) && Fits(cfg, bad, |bad.fields|) && !bad.end.Open? && Apart(cfg, last, bad) && e == last.end
    requires WriteLine(cfg, bad) <= text
    ensures Distinct(e, text)
  {
    LineStarts(cfg, bad);
    hide WriteLine;
  }

  lemma ParseParsed(cfg: Config, cs: string)
    ensures Parse(cfg, [cs]).events == Parsed(cfg, START, cs).events
    ensures Fail(Parse(cfg, [cs])) == Fail(Parsed(cfg, START, cs))
  {
    hide Run, Ended;
    OneChunk(cfg, cs);
    RunUncut(cfg, START, cs);
    var o := Run(cfg, START, cs);
    if o.Good? { EndedCut(cfg, o.state); }
  }

  /** A closed quote at the end of the input is reported as open when the quote is its own escape. */
  lemma ClosedQuoteReportedOpen()
    ensures Fail(Parse(Config('"', ',', false), ["\"a\""])) == QuoteNotClosed
  {
    var cfg, l := Config('"', ',', false), Line([(['a'], true)], Open);
    assert Writable(cfg, l.fields[0]) && l.fields[..0] == [];
    QuoteLeftOpen(cfg, l, 0);
    assert EscapeAll(cfg, ['a']) == ['a'];
    assert WriteLine(cfg, l) == "\"a\"";
    ParseParsed(cfg, "\"a\"");
  }

  /** A bare carriage return and a blank record ended by a line feed are written like one record ended by both. */
  lemma BlankAfterReturn(cfg: Config)
    requires Usable(cfg) && !cfg.hasTrailingComma
    ensures var f: Field := ([], false);
      WriteLine(cfg, Line([f], CR)) + WriteLine(cfg, Line([f], LF)) == WriteLine(cfg, Line([f], CRLF))
  {
  }

  /** No input at all is read as one record: with a single empty field, or without its trailing comma. */
  lemma EmptyInput(cfg: Config)
    requires cfg.comma != '\n'
    ensures Parse(cfg, []).events == (if cfg.hasTrailingComma then [] else [Event(0, 0, [])])
    ensures Fail(Parse(cfg, [])) == if cfg.hasTrailingComma then NoTrailingComma else Ok
  {
    RunPlain(cfg, START, "\n");
  }
}
