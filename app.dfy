/**
  The web front end of the display: how a received HTTP request becomes the
  message to show, which reply goes back, and how a message is laid out on
  the 128x64 panel, one 8-pixel text row per line.
 */
module App {
  import opened Strings

  const OledHeight := 64
  /** Rows advanced per text line; the font is 8 pixels high. */
  const LineHeight := 8

  const DisplayRoute := "POST /display"
  const HeaderEnd := "\r\n\r\n"
  const FormField := "text="

  /** A call the application makes on the display object. Filling, text
      rasterisation and flushing are not part of this model, so each call is
      recorded as an event. */
  datatype DisplayCall = Fill(color: int) | Text(line: string, x: int, y: int) | Show

  /** The text calls for `lines` when the first of them goes at row `y`:
      one line per 8 rows, and none once `y` has reached the panel height. */
  function PlaceLines(lines: seq<string>, y: int): (calls: seq<DisplayCall>)
    ensures |calls| <= |lines|
    ensures calls != [] ==> y + LineHeight * (|calls| - 1) < OledHeight
    ensures |calls| < |lines| ==> OledHeight <= y + LineHeight * |calls|
    decreases |lines|
  {
    if lines == [] || y >= OledHeight then []
    else [Text(lines[0], 0, y)] + PlaceLines(lines[1..], y + LineHeight)
  }

  function Min(a: int, b: int): int
  {
    if a <= b then a else b
  }

  /** Everything `update_display(text)` asks of the display. */
  function DisplayTrace(text: string): (trace: seq<DisplayCall>)
    ensures |trace| == 2 + Min(|Split(text, '\n')|, 8)
    ensures trace[0] == Fill(0) && trace[|trace| - 1] == Show
  {
    [Fill(0)] + PlaceLines(Split(text, '\n'), 0) + [Show]
  }

  /** Starting at row `8 * i0`, the placed lines are the next
      `min(#lines, 8 - i0)` lines, each `8` rows below the one before. */
  lemma {:induction false} PlaceLinesAt(lines: seq<string>, i0: nat)
    requires i0 <= 8
    ensures |PlaceLines(lines, LineHeight * i0)| == Min(|lines|, 8 - i0)
    ensures forall i :: 0 <= i < |PlaceLines(lines, LineHeight * i0)| ==>
      PlaceLines(lines, LineHeight * i0)[i] == Text(lines[i], 0, LineHeight * (i0 + i))
    decreases |lines|
  {
    if lines != [] && i0 < 8 {
      PlaceLinesAt(lines[1..], i0 + 1);
    }
  }

  /** Between clearing and flushing, `update_display` draws line `i` of the
      text at (0, 8 * i) for each of the first `min(#lines, 8)` lines. */
  lemma DisplayTraceShape(text: string)
    ensures var lines, trace := Split(text, '\n'), DisplayTrace(text);
      forall i :: 0 <= i < Min(|lines|, 8) ==>
        trace[1 + i] == Text(lines[i], 0, LineHeight * i) && LineHeight * i < OledHeight
  {
    TraceShape(Split(text, '\n'));
  }

  /** `DisplayTraceShape` over the list of lines itself. Stating it apart
      from `Split` keeps `Split`'s quantified contract out of this proof. */
  lemma TraceShape(lines: seq<string>)
    ensures var trace := [Fill(0)] + PlaceLines(lines, 0) + [Show];
      forall i :: 0 <= i < Min(|lines|, 8) ==>
        trace[1 + i] == Text(lines[i], 0, LineHeight * i) && LineHeight * i < OledHeight
  {
    var placed := PlaceLines(lines, 0);
    PlaceLinesAt(lines, 0);
    assert |placed| == Min(|lines|, 8);
    var trace := [Fill(0)] + placed + [Show];
    forall i | 0 <= i < |placed|
      ensures trace[1 + i] == Text(lines[i], 0, LineHeight * i) && LineHeight * i < OledHeight
    {
      assert trace[1 + i] == placed[i];
    }
  }

  /** A text with at most eight lines is drawn in full: the drawn lines,
      joined by newlines, give back the text. */
  lemma ShortTextFullyShown(text: string)
    requires |Split(text, '\n')| <= 8
    ensures var lines := Split(text, '\n');
      && PlaceLines(lines, 0) == seq(|lines|, i requires 0 <= i < |lines| => Text(lines[i], 0, LineHeight * i))
      && Join(lines, '\n') == text
  {
    PlaceLinesAt(Split(text, '\n'), 0);
    JoinSplit(text, '\n');
  }

  /** Placing the lines from index `i` on, at a row above the panel bottom,
      places line `i` and then the ones after it. */
  lemma PlaceLinesStep(lines: seq<string>, i: nat, y: int)
    requires i < |lines| && y < OledHeight
    ensures PlaceLines(lines[i..], y) == [Text(lines[i], 0, y)] + PlaceLines(lines[i + 1..], y + LineHeight)
  {
    assert lines[i..][1..] == lines[i + 1..];
  }

  /** One pass of the drawing loop keeps its invariant: drawing line `i`
      at row `y` and placing the rest from row `y + 8` places the same calls. */
  lemma DrawStep(calls: seq<DisplayCall>, lines: seq<string>, i: nat, y: int)
    requires i < |lines| && y < OledHeight
    ensures (calls + [Text(lines[i], 0, y)]) + PlaceLines(lines[i + 1..], y + LineHeight)
      == calls + PlaceLines(lines[i..], y)
  {
    PlaceLinesStep(lines, i, y);
  }

  /** Once the lines run out or the row reaches the panel height, nothing
      is left to place. */
  lemma DrawDone(lines: seq<string>, i: nat, y: int)
    requires i <= |lines|
    requires i == |lines| || OledHeight <= y
    ensures PlaceLines(lines[i..], y) == []
  {
  }

  /** `update_display(text)`: clear, draw the lines top to bottom until the
      panel height is reached, then flush. */
  method UpdateDisplay(text: string) returns (calls: seq<DisplayCall>)
    ensures calls == DisplayTrace(text)
  {
    calls := [Fill(0)];
    var y := 0;
    var lines := Split(text, '\n');
    var i := 0;
    // the source's `for` loop, which breaks once `y` reaches the panel height
    while i < |lines| && y < OledHeight
      invariant i <= |lines| && y == LineHeight * i
      invariant calls + PlaceLines(lines[i..], y) == [Fill(0)] + PlaceLines(lines, 0)
    {
      DrawStep(calls, lines, i, y);
      calls := calls + [Text(lines[i], 0, y)];
      y := y + LineHeight;
      i := i + 1;
    }
    DrawDone(lines, i, y);
    calls := calls + [Show];
  }

  /** The `text=` form decoding: `+` and `%20` become spaces, `%0A` a line
      feed, and `%0D` is dropped, in that order. A decoded value never holds
      a `+`, and a value without `+` or `%` is shown exactly as sent. */
  function DecodeForm(s: string): (r: string)
    ensures '+' !in r
    ensures '+' !in s && '%' !in s ==> r == s
  {
    var s1 := Replace(s, "+", " ");
    ReplaceChar(s, '+', ' ');
    assert '+' !in s1;
    var r := Replace(Replace(Replace(s1, "%20", " "), "%0A", "\n"), "%0D", "");
    if '+' !in s && '%' !in s then
      ReplaceAbsentPattern(s, "+", " ");
      ReplaceAbsentPattern(s, "%20", " ");
      ReplaceAbsentPattern(s, "%0A", "\n");
      ReplaceAbsentPattern(s, "%0D", "");
      r
    else
      r
  }

  /** The message carried by a request body: a `text=` form value is
      decoded, any other body is taken with surrounding whitespace stripped. */
  function MessageFromBody(body: string): (message: string)
    ensures StartsWith(body, FormField) ==> '+' !in message
    ensures !StartsWith(body, FormField) ==>
      (message == [] <==> forall k :: 0 <= k < |body| ==> IsSpace(body[k]))
    ensures !StartsWith(body, FormField) && message != [] ==>
      !IsSpace(message[0]) && !IsSpace(message[|message| - 1])
  {
    if StartsWith(body, FormField) then DecodeForm(body[|FormField|..]) else Strip(body)
  }

  /** The message to display for a received request: empty unless it is a
      `POST /display` with a header block ending in a blank line, otherwise
      the message of the text after the first blank line. */
  function ExtractMessage(request: string): (message: string)
    ensures !StartsWith(request, DisplayRoute) ==> message == ""
    ensures (forall k :: !OccursAt(request, HeaderEnd, k)) ==> message == ""
    ensures forall k :: StartsWith(request, DisplayRoute) && FirstOccurrence(request, HeaderEnd, k) ==>
      message == MessageFromBody(request[k + |HeaderEnd|..])
  {
    if !StartsWith(request, DisplayRoute) then ""
    else
      var headerEnd := Find(request, HeaderEnd);
      if headerEnd == -1 then "" else MessageFromBody(request[headerEnd + |HeaderEnd|..])
  }

  /** A request whose body is a `text=` form yields a message without `+`. */
  lemma FormMessageHasNoPlus(request: string)
    requires StartsWith(request, DisplayRoute)
    requires var k := Find(request, HeaderEnd); k != -1 && StartsWith(request[k + |HeaderEnd|..], FormField)
    ensures '+' !in ExtractMessage(request)
  {
  }

  /** Status line and body of the reply. */
  datatype Reply = Reply(status: string, body: string)

  const Accepted := Reply("200 OK", "Text received and displayed.")
  const Usage := Reply("240 No Content", "Send POST data to /display with 'text=YOUR_MESSAGE'.")

  /** The reply is `200 OK` exactly when there is a message to display;
      otherwise it is the custom `240 No Content` with a usage hint. */
  function SelectReply(message: string): (r: Reply)
    ensures r.status == "200 OK" <==> message != ""
    ensures message != "" ==> r.status == "200 OK" && r.body == "Text received and displayed."
    ensures message == "" ==>
      r.status == "240 No Content" && r.body == "Send POST data to /display with 'text=YOUR_MESSAGE'."
  {
    if message != "" then Accepted else Usage
  }

  /** The status line and Content-Length header, without the blank line.
      The header value is the decimal length of the body. */
  function ResponseHead(reply: Reply): (head: string)
    ensures var lead := "HTTP/1.1 " + reply.status + "\r\n" + "Content-Length: ";
      && |lead| < |head| && head[..|lead|] == lead
      && (forall i :: |lead| <= i < |head| ==> IsDigit(head[i]))
      && ParseDecimal(head[|lead|..]) == |reply.body|
  {
    var lead := "HTTP/1.1 " + reply.status + "\r\n" + "Content-Length: ";
    var digits := Decimal(|reply.body|);
    ParseDecimalOfDecimal(|reply.body|);
    assert (lead + digits)[|lead|..] == digits;
    lead + digits
  }

  /** The bytes sent back for a message. A client that splits them at the
      first blank line, as the server splits requests, gets exactly the head
      and the reply body. */
  function Response(message: string): (r: string)
    ensures var reply := SelectReply(message);
      var k := Find(r, HeaderEnd);
      && k == |ResponseHead(reply)|
      && r[..k] == ResponseHead(reply)
      && r[k + |HeaderEnd|..] == reply.body
  {
    var reply := SelectReply(message);
    var head := ResponseHead(reply);
    assert reply == Accepted || reply == Usage;
    NoBlankLineInHead(reply);
    FindAfterHead(head, reply.body);
    ResponseSlices(head, reply.body);
    head + HeaderEnd + reply.body
  }

  lemma ResponseSlices(head: string, body: string)
    ensures var r := head + HeaderEnd + body;
      r[|head| + |HeaderEnd|..] == body && r[..|head|] == head
  {
  }

  /** In `head + "\r\n\r\n" + body`, the first blank line is the one after
      `head` when `head` holds no two carriage returns two apart and does not
      end in a line break character. */
  lemma FindAfterHead(head: string, body: string)
    requires |head| >= 1 && head[|head| - 1] != '\r' && head[|head| - 1] != '\n'
    requires forall j :: 0 <= j && j + 2 < |head| ==> !(head[j] == '\r' && head[j + 2] == '\r')
    ensures Find(head + HeaderEnd + body, HeaderEnd) == |head|
  {
    var r := head + HeaderEnd + body;
    assert OccursAt(r, HeaderEnd, |head|) by {
      assert r[|head|..|head| + 4] == HeaderEnd;
    }
    forall j | 0 <= j < |head| ensures !OccursAt(r, HeaderEnd, j) {
      var w := r[j..j + 4];
      assert w[0] == r[j] && w[1] == r[j + 1] && w[2] == r[j + 2];
      if j + 2 < |head| {
        assert r[j] == head[j] && r[j + 2] == head[j + 2];
      } else {
        assert r[|head| - 1] == head[|head| - 1];
      }
    }
  }

  /** No two carriage returns stand two apart in a response head, so it
      cannot hold the start of a blank line. */
  lemma NoBlankLineInHead(reply: Reply)
    requires reply == Accepted || reply == Usage
    ensures var head := ResponseHead(reply);
      && |head| >= 1 && head[|head| - 1] != '\r' && head[|head| - 1] != '\n'
      && forall j :: 0 <= j && j + 2 < |head| ==> !(head[j] == '\r' && head[j + 2] == '\r')
  {
    assert '\r' !in reply.status;
    HeadLayout(reply.status, Decimal(|reply.body|));
  }

  /** A head made of the status line, one line break, a header name and
      digits has its only carriage return at the line break. */
  lemma HeadLayout(status: string, digits: string)
    requires '\r' !in status && |digits| >= 1
    requires forall i :: 0 <= i < |digits| ==> IsDigit(digits[i])
    ensures var head := "HTTP/1.1 " + status + "\r\n" + "Content-Length: " + digits;
      && head[|head| - 1] != '\r' && head[|head| - 1] != '\n'
      && forall j :: 0 <= j && j + 2 < |head| ==> !(head[j] == '\r' && head[j + 2] == '\r')
  {
    var version, name := "HTTP/1.1 ", "Content-Length: ";
    var head := version + status + "\r\n" + name + digits;
    var p := |version| + |status|;
    assert '\r' !in version && '\r' !in name;
    assert head[|head| - 1] == digits[|digits| - 1];
    forall j | 0 <= j < |head| && j != p ensures head[j] != '\r' {
      if j < |version| {
        assert head[j] == version[j];
      } else if j < p {
        assert head[j] == status[j - |version|];
      } else if j == p + 1 {
        assert head[j] == '\n';
      } else if j < p + 2 + |name| {
        assert head[j] == name[j - p - 2];
      } else {
        assert head[j] == digits[j - p - 2 - |name|];
      }
    }
    assert head[p + 2] == name[0];
  }

  /** The request handling of the server loop: extract the message, display
      it when there is one, and build the reply. */
  method HandleRequest(request: string) returns (calls: seq<DisplayCall>, response: string)
    ensures calls != [] <==> ExtractMessage(request) != ""
    ensures calls != [] ==> calls == DisplayTrace(ExtractMessage(request))
    ensures response == Response(ExtractMessage(request))
    ensures calls != [] <==> SelectReply(ExtractMessage(request)).status == "200 OK"
  {
    var message := ExtractMessage(request);
    calls := [];
    if message != "" {
      calls := UpdateDisplay(message);
    }
    response := Response(message);
  }
}
