# Echo server request line, modelled in Dafny

This project models the request handling of an early stage of a small
HTTP/1.1 server written in Java (`src/main/java/Main.java`). The server
reads one request line. It splits the line on single spaces with Java's
`String.split(" ")` and takes token 1 as the path. If the path equals
`/echo/` exactly, it writes a `200 OK` plain-text response. Otherwise it
writes the literal bytes `HTTP/1.1 404 Not Found\r\n\r\n`.

Two modules:

- `JavaStrings` (`java_split.dfy`) models `String.split(" ")`:
  - `Pieces` cuts the string at every space and keeps every piece.
  - `DropTrailingEmpty` removes the trailing empty strings, as Java does for limit 0.
  - `SplitSpace` puts both together. It also covers Java's fast path: a string with no space comes back as a one-element array holding the string, so `""` gives `[""]`.
  - `Join` is `String.join(" ", …)` and is used to state the round trips.
- `EchoServer` (`echo_server.dfy`) models the server:
  - `Route` is the routing rule (`src/main/java/Main.java` lines 28-35 and 51-56). Only a path equal to `/echo/` gives `Ok`, and its body is `path.substring("/echo/".length())`, kept as in the source.
  - `Format` is the response formatter (lines 41-48, 52 and 55): status line, `Content-Type`, `Content-Length` as the decimal `Decimal`, the blank line, then the body.
  - `Respond(line)` is `Format(Route(line))`, everything lines 26-56 write for one line.
  - `ParseResponse` reads a response back from its bytes. It is the formatter's inverse, and it accepts a 200 response only when the declared length equals the length of the body.

The routing test in the source is `contentEquals`, which is an equality
test and not a prefix test. So the `200` branch always has an empty body
and `Content-Length: 0`. The model keeps this behaviour, and the lemmas
prove it. The input line is a Dafny `string`, so the line always exists.
`readLine` has already removed the line terminator.

## Model

| member | source | states |
|---|---|---|
| `JavaStrings.Pieces` | src/main/java/Main.java:28 | there is always at least one piece, and no piece contains a space |
| `JavaStrings.DropTrailingEmpty` | src/main/java/Main.java:28 | the result is a prefix of the pieces, its last element is not empty, and every piece dropped is empty |
| `JavaStrings.SplitSpace` | src/main/java/Main.java:28 | no token contains a space; a line without a space is returned as its only token; otherwise the last token, if any, is not empty |
| `JavaStrings.JoinPieces` | src/main/java/Main.java:28 | joining all pieces with single spaces gives back the line |
| `JavaStrings.PiecesUnique` | src/main/java/Main.java:28 | the pieces are the only space-free token sequence that joins back to the line |
| `JavaStrings.SplitJoin` | src/main/java/Main.java:28 | a line that is empty or does not end in a space is given back by joining its tokens with single spaces |
| `JavaStrings.SplitTrailingSpace` | src/main/java/Main.java:28 | a trailing space does not change the tokens of a non-empty line, because trailing empty pieces are dropped |
| `JavaStrings.SplitMethodPath` | src/main/java/Main.java:28-32 | in "method SP path [SP …]", token 0 is the method and token 1 is the path |
| `JavaStrings.SplitDoubleSpace` | src/main/java/Main.java:28-32 | two spaces after the method give an empty token 1, or fewer than two tokens |
| `JavaStrings.SplitKeepsInnerEmpty` | src/main/java/Main.java:28 | `"GET  /"` splits into `["GET", "", "/"]` |
| `JavaStrings.SplitDropsTrailingEmpty` | src/main/java/Main.java:28 | `"GET "` splits into `["GET"]` |
| `JavaStrings.SplitKeepsLeadingEmpty` | src/main/java/Main.java:28 | `" GET"` splits into `["", "GET"]` |
| `JavaStrings.SplitEmptyAndBlank` | src/main/java/Main.java:28 | `""` splits into `[""]`, and `" "` splits into no tokens |
| `EchoServer.Decimal` | src/main/java/Main.java:44-47 | `%d` text: non-empty, all decimal digits, no leading zero |
| `EchoServer.DecimalRoundTrip` | src/main/java/Main.java:44-47 | reading the decimal text of `n` gives `n` back |
| `EchoServer.FormatRoundTrip` | src/main/java/Main.java:36-37 | every formatted response parses back to itself, so the `Content-Length` of a 200 response equals the length of the text after `\r\n\r\n` |
| `EchoServer.FormatInjective` | src/main/java/Main.java:41-55 | different responses are written as different bytes |
| `EchoServer.ResponseFraming` | src/main/java/Main.java:41-55 | every response starts with `HTTP/1.1 ` and has `\r\n\r\n` right before its body; nothing follows the terminator in the 404 case |
| `EchoServer.OkWireLiteral` | src/main/java/Main.java:41-48 | the formatter's output for the empty body is exactly `HTTP/1.1 200 OK\r\nContent-Type: text/plain\r\nContent-Length: 0\r\n\r\n` |
| `EchoServer.ShortRequestNotFound` | src/main/java/Main.java:28-31 | fewer than two tokens give exactly the 404 bytes (the else branch at lines 54-55) |
| `EchoServer.EchoPathOk` | src/main/java/Main.java:34-48 | a path equal to `/echo/` routes to an empty body and gives exactly the 200 bytes with `Content-Length: 0` |
| `EchoServer.OtherPathNotFound` | src/main/java/Main.java:35-52 | any path other than exactly `/echo/` gives exactly the 404 bytes |
| `EchoServer.RespondTwoForms` | src/main/java/Main.java:31-56 | the response is either the 200 form or the 404 form, and it is the 200 form if and only if token 1 equals `/echo/` |
| `EchoServer.MethodAndVersionIgnored` | src/main/java/Main.java:28-35 | for any method and any text after the path, the response depends only on whether the path equals `/echo/` |
| `EchoServer.SamePathSameResponse` | src/main/java/Main.java:31-35 | two lines with the same token 1 get the same response |
| `EchoServer.EmptyPathNotFound` | src/main/java/Main.java:28-35 | the empty path made by two consecutive spaces gives the 404 bytes |
| `EchoServer.TrailingSpaceIgnored` | src/main/java/Main.java:28-31 | trailing spaces never change the response |
| `EchoServer.EchoRequestExample` | src/main/java/Main.java:32-48 | `GET /echo/ HTTP/1.1` gets the 200 bytes |
| `EchoServer.EchoMessageExample` | src/main/java/Main.java:32-52 | `GET /echo/abc HTTP/1.1` gets the 404 bytes, because the match is not a prefix match |
| `EchoServer.RootRequestExample` | src/main/java/Main.java:32-52 | `GET / HTTP/1.1` gets the 404 bytes |
| `EchoServer.MethodOnlyExample` | src/main/java/Main.java:28-31 | `GET ` is a single token and gets the 404 bytes |

## Left out

- Opening the server socket, `setReuseAddress` and `accept` (lines 13-19) are network I/O and are not modelled.
- Setting up the streams, `readLine` and socket `write`/`flush` (lines 22-26, 49-50, 52, 55) are not modelled. The model takes the line that was read as input and returns the text that would be written.
- The `System.out.println` logging (lines 8, 20, 27, 38-39, 59) is a side effect only and is not modelled.
- The `IOException` handler (lines 58-60) is not modelled, because no I/O is modelled.
- End of stream is not modelled. There `readLine` returns `null` and `split` throws a `NullPointerException`. In the model the line always exists.
- `getBytes()` with the platform charset is not modelled; the model produces characters, not bytes.
- Format: Dafny's `|body|` counts Unicode scalar values where `String.length()` counts UTF-16 code units; they agree on the only body the server builds, the empty one.
- Decimal: `%d` is modelled with ASCII digits; `String.format` uses the digits of the default locale.
- The later stages of the server (byte-level header scanner, header parsing, gzip, file routes, persistent connections) are not in this source file and are not modelled.
