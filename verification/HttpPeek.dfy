/** The request peeker: one pass over the buffer with a moving cursor, writing what it finds
    into a header record. Pointers into the buffer are offsets. */
module HttpPeek {
  import opened Bytes
  import opened Widths
  import opened HttpGrammar
  import opened HttpTheorems

  /** A buffer whose length fits a uint16_t. */
  type Buffer = s: seq<Byte> | |s| < 0x1_0000 witness []

  /** What a call comes to; `OverRead` stands for a read of the byte after the buffer. */
  datatype Reply = OverRead | Returned(result: bool)

  class PeekHeader {
    var name: Option<nat>
    var nameLen: Uint16
    var value: nat
    var valueLen: Uint16
    var version: int
    var method_: nat
    var methodLen: Uint16
    var path: nat
    var pathLen: Uint16
    var resCode: int
    var msg: Option<nat>
    var msgLen: Uint16

    /** The last header line read is this one. */
    predicate HoldsHeader(h: HeaderLine)
      reads this
    {
      && h.value == Slice(value, valueLen)
      && match h.name
         case None => name == None && nameLen == 0
         case Some(slice) => name == Some(slice.at) && nameLen == slice.len
    }

    predicate Holds(f: Fields)
      reads this
    {
      && f.method_ == Slice(method_, methodLen) && f.path == Slice(path, pathLen)
      && f.version == version && HoldsHeader(HeaderLine(f.name, f.value))
    }
  }

  /** The unrolled scan for the end of the line. */
  method GetTokenToEol(s: Buffer, start: nat) returns (next: Option<nat>, token: nat, tokenLen: Uint16)
    requires start <= |s|
    ensures var e := Scan(s, start, IsControl);
      if e == |s| || PastEol(s, e).None? then next == None
      else next == PastEol(s, e) && Slice(token, tokenLen) == Slice(start, e - start)
  {
    next, token, tokenLen := None, start, 0;
    var buf := start;
    var found := false;
    while |s| - buf >= 8
      invariant start <= buf <= |s| && !found
      invariant forall i | start <= i < buf :: !IsControl(s[i])
    {
      label unrolled: {
        if !IsPrintable(s[buf]) { break unrolled; }
        buf := buf + 1;
        if !IsPrintable(s[buf]) { break unrolled; }
        buf := buf + 1;
        if !IsPrintable(s[buf]) { break unrolled; }
        buf := buf + 1;
        if !IsPrintable(s[buf]) { break unrolled; }
        buf := buf + 1;
        if !IsPrintable(s[buf]) { break unrolled; }
        buf := buf + 1;
        if !IsPrintable(s[buf]) { break unrolled; }
        buf := buf + 1;
        if !IsPrintable(s[buf]) { break unrolled; }
        buf := buf + 1;
        if !IsPrintable(s[buf]) { break unrolled; }
        buf := buf + 1;
        continue;
      }
      if (s[buf] < 32 && s[buf] != HT) || s[buf] == DEL {
        found := true;
        break;
      }
      buf := buf + 1;
    }
    while !found
      invariant start <= buf <= |s|
      invariant forall i | start <= i < buf :: !IsControl(s[i])
      invariant found ==> buf < |s| && IsControl(s[buf])
      decreases |s| - buf, !found
    {
      if buf == |s| {
        ScanIs(s, start, IsControl, |s|);
        return;
      }
      if !IsPrintable(s[buf]) && ((s[buf] < 32 && s[buf] != HT) || s[buf] == DEL) {
        found := true;
      } else {
        buf := buf + 1;
      }
    }
    ScanIs(s, start, IsControl, buf);
    if s[buf] == CR {
      buf := buf + 1;
      if buf == |s| || s[buf] != LF {
        return;
      }
      buf := buf + 1;
      tokenLen := ToUint16(buf - 2 - start);
    } else if s[buf] == LF {
      tokenLen := ToUint16(buf - start);
      buf := buf + 1;
    } else {
      return;
    }
    next := Some(buf);
  }

  /** A token up to `nextChar`, which is not left behind. */
  method ParseToken(s: Buffer, start: nat, nextChar: Byte) returns (end: Option<nat>, token: nat, tokenLen: Uint16)
    requires start < |s| && NotToken(nextChar)
    ensures var q := Scan(s, start, NotToken);
      if q == |s| || s[q] != nextChar then end == None
      else end == Some(q) && Slice(token, tokenLen) == Slice(start, q - start)
  {
    end, token, tokenLen := None, start, 0;
    var buf := start;
    while s[buf] != nextChar
      invariant start <= buf < |s|
      invariant Scan(s, start, NotToken) == Scan(s, buf, NotToken)
      decreases |s| - buf
    {
      if !IsToken(s[buf]) {
        return;
      }
      buf := buf + 1;
      if buf == |s| {
        return;
      }
    }
    end, tokenLen := Some(buf), ToUint16(buf - start);
  }

  /** The path: everything up to a space but controls. */
  method AdvanceToken(s: Buffer, start: nat) returns (end: Option<nat>, token: nat, tokenLen: Uint16)
    requires start < |s|
    ensures var q := Scan(s, start, EndsPath);
      if q == |s| || s[q] != SP then end == None
      else end == Some(q) && Slice(token, tokenLen) == Slice(start, q - start)
  {
    end, token, tokenLen := None, start, 0;
    var buf := start;
    while s[buf] != SP
      invariant start <= buf < |s|
      invariant Scan(s, start, EndsPath) == Scan(s, buf, EndsPath)
      decreases |s| - buf
    {
      if !IsPrintable(s[buf]) && (s[buf] < SP || s[buf] == DEL) {
        return;
      }
      buf := buf + 1;
      if buf == |s| {
        return;
      }
    }
    end, tokenLen := Some(buf), ToUint16(buf - start);
  }

  /** Past the spaces after the one at `start`, if anything else follows. */
  method SkipSpaces(s: Buffer, start: nat) returns (next: Option<nat>)
    requires start < |s|
    ensures var q := Scan(s, start + 1, NotSpace); next == if q == |s| then None else Some(q)
  {
    next := None;
    var buf := start + 1;
    if buf == |s| {
      return;
    }
    while s[buf] == SP
      invariant start < buf < |s|
      invariant Scan(s, start + 1, NotSpace) == Scan(s, buf, NotSpace)
      decreases |s| - buf
    {
      buf := buf + 1;
      if buf == |s| {
        return;
      }
    }
    next := Some(buf);
  }

  method ParseHttpVersion(s: Buffer, start: nat) returns (end: Option<nat>, version: int)
    requires start <= |s|
    ensures match ParseVersion(s, start)
      case None => end == None
      case Some(v) => end == Some(start + 8) && version == v
  {
    end, version := None, 0;
    if |s| - start < 9 {
      return;
    }
    if s[start] != 72 || s[start + 1] != 84 || s[start + 2] != 84 || s[start + 3] != 80
       || s[start + 4] != 47 || s[start + 5] != 49 || s[start + 6] != 46 {
      return;
    }
    assert s[start..start + 7] == HTTP1;
    var buf := start + 7;
    if s[buf] < 48 || 57 < s[buf] {
      return;
    }
    version := s[buf] - 48;
    end := Some(buf + 1);
  }

  method ParseHeader(s: Buffer, start: nat, head: PeekHeader) returns (result: bool)
    requires start <= |s|
    modifies head`name, head`nameLen, head`value, head`valueLen
    ensures result <==> ParseHeaderLine(s, start).Some?
    ensures result ==> head.HoldsHeader(ParseHeaderLine(s, start).value)
  {
    result := false;
    if start == |s| {
      return;
    }
    if s[start] == CR || s[start] == LF {
      return;
    }
    var buf := start;
    ghost var name: Option<Slice> := None;
    if !(s[buf] == SP || s[buf] == HT) {
      var next := ParseHeaderName(s, start, head);
      if next.None? {
        return;
      }
      buf, name := next.value, Some(Slice(head.name.value, head.nameLen));
    } else {
      head.name, head.nameLen := None, 0;
    }
    result := ParseHeaderValue(s, buf, head, name);
  }

  /** The name, the colon and the blanks after it. */
  method ParseHeaderName(s: Buffer, start: nat, head: PeekHeader) returns (next: Option<nat>)
    requires start < |s| && s[start] != CR && s[start] != LF && !IsBlank(s[start])
    modifies head`name, head`nameLen
    ensures match next
      case None => ParseHeaderLine(s, start) == None
      case Some(v) =>
        && v < |s| && head.name.Some?
        && ParseHeaderLine(s, start) == ParseValue(s, v, Some(Slice(head.name.value, head.nameLen)))
  {
    next := None;
    var end, token, tokenLen := ParseToken(s, start, COLON);
    if end.None? {
      return;
    }
    head.name, head.nameLen := Some(token), tokenLen;
    if head.nameLen == 0 {
      return;
    }
    var buf := end.value + 1;
    while true
      invariant end.value < buf <= |s|
      invariant Scan(s, end.value + 1, NotBlank) == Scan(s, buf, NotBlank)
      decreases |s| - buf
    {
      if buf == |s| {
        return;
      }
      if !(s[buf] == SP || s[buf] == HT) {
        break;
      }
      buf := buf + 1;
    }
    next := Some(buf);
  }

  /** The value; the name before it is known. */
  method ParseHeaderValue(s: Buffer, start: nat, head: PeekHeader, ghost name: Option<Slice>) returns (result: bool)
    requires start <= |s|
    modifies head`value, head`valueLen
    ensures match ParseValue(s, start, name)
      case None => !result
      case Some(h) => result && h == HeaderLine(name, Slice(head.value, head.valueLen))
  {
    result := false;
    var next, token, valueLen := GetTokenToEol(s, start);
    if next.None? {
      return;
    }
    head.value := token;
    var valueEnd := TrimEnd(s, token, token + valueLen);
    head.valueLen := ToUint16(valueEnd - token);
    result := true;
  }

  /** Steps back over trailing blanks. */
  method TrimEnd(s: Buffer, start: nat, end: nat) returns (valueEnd: nat)
    requires start <= end <= |s|
    ensures valueEnd == TrimmedEnd(s, start, end)
  {
    valueEnd := end;
    while valueEnd != start
      invariant start <= valueEnd <= end
      invariant TrimmedEnd(s, start, end) == TrimmedEnd(s, start, valueEnd)
    {
      var c := s[valueEnd - 1];
      if !(c == SP || c == HT) {
        break;
      }
      valueEnd := valueEnd - 1;
    }
  }

  /** Reads the request line that starts at `start`. */
  method PeekRequestLine(s: Buffer, start: nat, head: PeekHeader) returns (after: Option<nat>)
    requires start < |s|
    modifies head`method_, head`methodLen, head`path, head`pathLen, head`version
    ensures match ParseRequestLine(s, start)
      case None => after == None
      case Some(line) =>
        && after == Some(line.next) && head.version == line.version
        && line.method_ == Slice(head.method_, head.methodLen) && line.path == Slice(head.path, head.pathLen)
  {
    var next := PeekMethod(s, start, head);
    if next.None? {
      return None;
    }
    next := PeekPath(s, next.value, head);
    if next.None? {
      return None;
    }
    if head.methodLen == 0 || head.pathLen == 0 {
      return None;
    }
    after := PeekVersion(s, next.value, head, Slice(head.method_, head.methodLen), Slice(head.path, head.pathLen));
  }

  /** Reads the method and the spaces after it. */
  method PeekMethod(s: Buffer, start: nat, head: PeekHeader) returns (next: Option<nat>)
    requires start < |s|
    modifies head`method_, head`methodLen
    ensures match ParseWord(s, start, NotToken)
      case None => next == None
      case Some(w) => next == Some(w.next) && Slice(head.method_, head.methodLen) == Slice(start, w.end - start)
  {
    var end, token, tokenLen := ParseToken(s, start, SP);
    if end.None? {
      return None;
    }
    head.method_, head.methodLen := token, tokenLen;
    next := SkipSpaces(s, end.value);
  }

  /** Reads the path and the spaces after it. */
  method PeekPath(s: Buffer, start: nat, head: PeekHeader) returns (next: Option<nat>)
    requires start < |s|
    modifies head`path, head`pathLen
    ensures match ParseWord(s, start, EndsPath)
      case None => next == None
      case Some(w) => next == Some(w.next) && Slice(head.path, head.pathLen) == Slice(start, w.end - start)
  {
    var end, token, tokenLen := AdvanceToken(s, start);
    if end.None? {
      return None;
    }
    head.path, head.pathLen := token, tokenLen;
    next := SkipSpaces(s, end.value);
  }

  /** Reads the version and the end of the request line; the words before it are known. */
  method PeekVersion(s: Buffer, start: nat, head: PeekHeader, ghost method_: Slice, ghost path: Slice)
    returns (after: Option<nat>)
    requires start <= |s|
    modifies head`version
    ensures match ParseLineEnd(s, start, method_, path)
      case None => after == None
      case Some(line) => after == Some(line.next) && head.version == line.version
  {
    after := None;
    var end, version := ParseHttpVersion(s, start);
    if end.None? {
      return;
    }
    head.version := version;
    var buf := end.value;
    if s[buf] == CR {
      buf := buf + 1;
      if buf == |s| || s[buf] != LF {
        return;
      }
      buf := buf + 1;
    } else if s[buf] == LF {
      buf := buf + 1;
    } else {
      return;
    }
    after := Some(buf);
  }

  /** Reads one request line and the line after it. */
  method PeekHttpRequest(s: Buffer, head: PeekHeader) returns (reply: Reply)
    modifies head`name, head`nameLen, head`value, head`valueLen, head`version
    modifies head`method_, head`methodLen, head`path, head`pathLen
    ensures match ParseRequest(s)
      case OverRead => reply == Reply.OverRead
      case Rejected => reply == Returned(false)
      case Accepted(fields) => reply == Returned(true) && head.Holds(fields)
  {
    reply := Returned(false);
    var buf := 0;
    if buf == |s| {
      return;
    }
    if s[buf] == CR {
      buf := buf + 1;
      if buf == |s| || s[buf] != LF {
        return;
      }
      buf := buf + 1;
    } else if s[buf] == LF {
      buf := buf + 1;
    }
    assert PastEmptyLine(s) == Some(buf);
    if buf == |s| {
      return Reply.OverRead;
    }
    var next := PeekRequestLine(s, buf, head);
    if next.None? {
      return;
    }
    var ok := ParseHeader(s, next.value, head);
    reply := Returned(ok);
  }
}
