/**
 * The command server: a registry from upper-cased command names to
 * handlers, a dispatcher with an optional pre-hook and a counter of routed
 * commands, and the writers that frame simple strings, errors and bulk
 * strings of the Redis serialization protocol (RESP2).
 */
module Server {

  import opened Common

  // ----- registry and dispatch -----

  /** What Dispatch did with one request. */
  datatype Routed<H> =
    | Hooked                                            // the pre-hook handled it
    | Unknown                                           // no such command: dropped
    | Invoke(handler: H, name: string, args: seq<string>) // the handler to call, and with what

  /**
   * The part of a server that routes commands. Handlers are opaque values of
   * type `H`; the pre-hook decides from the upper-cased name and the
   * arguments whether it has handled a request.
   */
  class Server<H> {
    var cmds: map<string, H>
    var preHook: Option<(string, seq<string>) -> bool>
    var cmdCnt: int

    /** The registry state of a new server: no commands, no hook, nothing counted. */
    constructor ()
      ensures cmds == map[] && preHook == None && cmdCnt == 0
    {
      cmds, preHook, cmdCnt := map[], None, 0;
    }

    /**
     * Register binds the upper-cased name to `f`, or fails, changing nothing,
     * when that name is already bound.
     */
    method Register(cmd: string, f: H) returns (err: Option<string>)
      modifies this
      ensures preHook == old(preHook) && cmdCnt == old(cmdCnt)
      ensures Upper(cmd) in old(cmds) ==>
        err == Some("command already registered: " + Upper(cmd)) && cmds == old(cmds)
      ensures Upper(cmd) !in old(cmds) ==>
        err == None && cmds == old(cmds)[Upper(cmd) := f]
    {
      var up := Upper(cmd);
      if up in cmds {
        return Some("command already registered: " + up);
      }
      cmds := cmds[up := f];
      return None;
    }

    /**
     * Dispatch upper-cases the command name; a pre-hook that reports the
     * request handled stops it; otherwise an unregistered name is dropped and
     * a registered one is counted and handed to its handler with the
     * remaining arguments.
     */
    method Dispatch(args: seq<string>) returns (out: Routed<H>)
      requires |args| > 0
      modifies this
      ensures cmds == old(cmds) && preHook == old(preHook)
      ensures var up := Upper(args[0]);
        && (preHook.Some? && preHook.value(up, args[1..]) ==> out == Hooked)
        && (!(preHook.Some? && preHook.value(up, args[1..])) ==>
              out == if up in cmds then Invoke(cmds[up], up, args[1..]) else Unknown)
      ensures cmdCnt == old(cmdCnt) + (if out.Invoke? then 1 else 0)
    {
      var cmd, rest := args[0], args[1..];
      var cmdUp := Upper(cmd);
      var fn := preHook;
      if fn.Some? {
        if fn.value(cmdUp, rest) {
          return Hooked;
        }
      }
      if cmdUp !in cmds {
        return Unknown;
      }
      var cb := cmds[cmdUp];
      cmdCnt := cmdCnt + 1;
      return Invoke(cb, cmdUp, rest);
    }

    /** TotalCommands reads the number of commands routed so far. */
    method TotalCommands() returns (n: int)
      ensures n == cmdCnt
    {
      return cmdCnt;
    }
  }

  /** Names that differ only in ASCII case reach the same registry entry. */
  lemma SameEntryIgnoringCase(a: string, b: string)
    requires Lower(a) == Lower(b)
    ensures Upper(a) == Upper(b)
  {
    assert |a| == |Lower(a)| == |Lower(b)| == |b|;
    forall i | 0 <= i < |a|
      ensures Upper(a)[i] == Upper(b)[i]
    {
      assert Lower(a)[i] == Lower(b)[i];
      SameUpperChar(a[i], b[i]);
    }
  }

  /** Characters with the same lower case have the same upper case. */
  lemma SameUpperChar(x: char, y: char)
    requires LowerChar(x) == LowerChar(y)
    ensures UpperChar(x) == UpperChar(y)
  {
  }

  // ----- reply framing -----

  /** Go's unicode.IsSpace: Latin-1 white space, and the Unicode White_Space characters above it. */
  predicate IsSpace(c: char) {
    if c as int <= 0xFF then
      c == '\t' || c == '\n' || c == '\U{000B}' || c == '\U{000C}' || c == '\r' || c == ' '
      || c == '\U{0085}' || c == '\U{00A0}'
    else
      c == '\U{1680}' || ('\U{2000}' <= c <= '\U{200A}') || c == '\U{2028}' || c == '\U{2029}'
      || c == '\U{202F}' || c == '\U{205F}' || c == '\U{3000}'
  }

  /** The code points with the Unicode White_Space property. */
  const WhiteSpace: set<char> := {
    '\t', '\n', '\U{000B}', '\U{000C}', '\r', ' ', '\U{0085}', '\U{00A0}', '\U{1680}',
    '\U{2000}', '\U{2001}', '\U{2002}', '\U{2003}', '\U{2004}', '\U{2005}', '\U{2006}',
    '\U{2007}', '\U{2008}', '\U{2009}', '\U{200A}',
    '\U{2028}', '\U{2029}', '\U{202F}', '\U{205F}', '\U{3000}'}

  /** unicode.IsSpace holds for exactly the White_Space code points, CR and LF among them. */
  lemma IsSpaceIsWhiteSpace(c: char)
    ensures IsSpace(c) <==> c in WhiteSpace
    ensures c == '\r' || c == '\n' ==> IsSpace(c)
  {
  }

  /** toInline: every white-space character becomes a space; all others stay. */
  function ToInline(s: string): (t: string)
    ensures |t| == |s|
    ensures forall i :: 0 <= i < |s| ==> t[i] == (if IsSpace(s[i]) then ' ' else s[i])
  {
    if s == [] then [] else [if IsSpace(s[0]) then ' ' else s[0]] + ToInline(s[1..])
  }

  /** An inline string is one line: it holds no carriage return and no line feed. */
  lemma ToInlineIsOneLine(s: string)
    ensures forall i :: 0 <= i < |ToInline(s)| ==> ToInline(s)[i] != '\r' && ToInline(s)[i] != '\n'
  {
  }

  /** toInline changes nothing in a string without white space other than spaces, and is idempotent. */
  lemma {:induction false} ToInlineFixedPoints(s: string)
    ensures (forall i :: 0 <= i < |s| ==> !IsSpace(s[i]) || s[i] == ' ') ==> ToInline(s) == s
    ensures ToInline(ToInline(s)) == ToInline(s)
  {
    if s != [] {
      ToInlineFixedPoints(s[1..]);
      assert ToInline(s)[1..] == ToInline(s[1..]);
    }
  }

  const CRLF: string := "\r\n"

  /** Writer.WriteInline: `+`, the inline form of `s`, CRLF. */
  function WriteInline(s: string): (out: string)
    ensures |out| == |s| + 3 && out[0] == '+'
  {
    "+" + ToInline(s) + CRLF
  }

  /** Writer.WriteError: `-`, the inline form of `e`, CRLF. */
  function WriteError(e: string): (out: string)
    ensures |out| == |e| + 3 && out[0] == '-'
  {
    "-" + ToInline(e) + CRLF
  }

  /** Bytes of one character in UTF-8, the encoding in which Go measures a string. */
  function Utf8Width(c: char): (k: nat)
    ensures 1 <= k <= 4
    ensures c as int < 0x80 <==> k == 1
  {
    if c as int < 0x80 then 1
    else if c as int < 0x800 then 2
    else if c as int < 0x10000 then 3
    else 4
  }

  /** Go's `len(s)`: the number of bytes of `s` in UTF-8. */
  function Utf8Len(s: string): (k: nat)
    ensures |s| <= k <= 4 * |s|
  {
    if s == [] then 0 else Utf8Width(s[0]) + Utf8Len(s[1..])
  }

  /** For ASCII text the byte length is the character count. */
  lemma {:induction false} Utf8LenAscii(s: string)
    requires forall i :: 0 <= i < |s| ==> s[i] as int < 0x80
    ensures Utf8Len(s) == |s|
  {
    if s != [] {
      Utf8LenAscii(s[1..]);
    }
  }

  /** Writer.WriteBulk: `$`, the byte length in decimal, CRLF, the bytes, CRLF. */
  function WriteBulk(s: string): (out: string)
    ensures |out| >= |s| + 5 && out[0] == '$' && out[|out| - 2..] == CRLF
  {
    "$" + Decimal(Utf8Len(s)) + CRLF + s + CRLF
  }

  // ----- reading frames back -----

  /** The body of a one-line frame that starts with `marker`, if `out` is one. */
  function ParseLine(marker: char, out: string): (body: Option<string>)
    ensures body.Some? ==> out == [marker] + body.value + CRLF
  {
    if |out| >= 3 && out[0] == marker && out[|out| - 2..] == CRLF
       && (forall i :: 1 <= i < |out| - 2 ==> out[i] != '\r' && out[i] != '\n')
    then Some(out[1..|out| - 2])
    else None
  }

  /** A simple-string frame reads back as the inline form of what was written. */
  lemma InlineRoundTrip(s: string)
    ensures ParseLine('+', WriteInline(s)) == Some(ToInline(s))
  {
    var out := WriteInline(s);
    ToInlineIsOneLine(s);
    assert out[1..|out| - 2] == ToInline(s);
    assert out[|out| - 2..] == CRLF;
  }

  /** An error frame reads back as the inline form of the message. */
  lemma ErrorRoundTrip(e: string)
    ensures ParseLine('-', WriteError(e)) == Some(ToInline(e))
  {
    var out := WriteError(e);
    ToInlineIsOneLine(e);
    assert out[1..|out| - 2] == ToInline(e);
    assert out[|out| - 2..] == CRLF;
  }

  /** Length of the run of decimal digits at the start of `s`. */
  function DigitRun(s: string): (k: nat)
    ensures k <= |s|
    ensures forall i :: 0 <= i < k ==> IsDigit(s[i])
    ensures k < |s| ==> !IsDigit(s[k])
  {
    if s == [] || !IsDigit(s[0]) then 0 else 1 + DigitRun(s[1..])
  }

  lemma {:induction false} DigitRunOfDigits(d: string, rest: string)
    requires IsDigits(d)
    requires rest == [] || !IsDigit(rest[0])
    ensures DigitRun(d + rest) == |d|
  {
    if |d| > 1 {
      assert (d + rest)[1..] == d[1..] + rest;
      DigitRunOfDigits(d[1..], rest);
    } else {
      assert (d + rest)[1..] == rest;
    }
  }

  /**
   * The payload of a bulk-string frame: `$`, a decimal length, CRLF, the
   * payload, CRLF, where the length is the payload's byte length.
   */
  function ParseBulk(out: string): (payload: Option<string>)
  {
    if |out| < 1 || out[0] != '$' then None
    else
      var k := DigitRun(out[1..]);
      var rest := out[1 + k..];
      if k == 0 || |rest| < 4 || rest[..2] != CRLF || rest[|rest| - 2..] != CRLF then None
      else
        var body := rest[2..|rest| - 2];
        if DigitsValue(out[1..1 + k]) == Utf8Len(body) then Some(body) else None
  }

  /** A bulk-string frame reads back as exactly the string written. */
  lemma BulkRoundTrip(s: string)
    ensures ParseBulk(WriteBulk(s)) == Some(s)
  {
    DecimalDigits(Utf8Len(s));
    ParseBulkFrame(Decimal(Utf8Len(s)), s);
  }

  /** A frame of digits `d`, CRLF, `s`, CRLF reads back as `s` when `d` spells the byte length of `s`. */
  lemma ParseBulkFrame(d: string, s: string)
    requires IsDigits(d) && DigitsValue(d) == Utf8Len(s)
    ensures ParseBulk("$" + d + CRLF + s + CRLF) == Some(s)
  {
    var out := "$" + d + CRLF + s + CRLF;
    var tail := CRLF + s + CRLF;
    assert out == "$" + (d + tail);
    assert out[1..] == d + tail;
    DigitRunOfDigits(d, tail);
    assert out[1..1 + |d|] == d;
    assert out[1 + |d|..] == tail;
    FrameTail(s);
  }

  lemma FrameTail(s: string)
    ensures var tail := CRLF + s + CRLF;
      |tail| >= 4 && tail[..2] == CRLF && tail[|tail| - 2..] == CRLF && tail[2..|tail| - 2] == s
  {
    var tail := CRLF + s + CRLF;
    assert tail[..2] == CRLF;
    assert tail[|tail| - 2..] == CRLF;
    assert tail[2..|tail| - 2] == s;
  }
}
