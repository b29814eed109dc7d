# volans, modelled in Dafny

This project models the core of volans, a peer-to-peer networking stack
written in Rust. It covers:
- the shared vocabulary of `volans-core`: byte codecs, the unsigned-varint
  and percent-encoding rules, peer identities, the multiaddress codec and
  its conversion from URLs, connection endpoints, typed extensions, the
  transport events and the upgrade layer;
- protocol negotiation in `volans-stream-select`: length-prefixed framing,
  the negotiation messages, the dialer and listener state machines, and
  the negotiated stream;
- the TCP, WebSocket and bridge (relayed circuit) transports' address
  logic and state, and the muxer interface with its yamux adapter;
- `volans-swarm`: one connection's inbound and outbound sub-stream
  bookkeeping and shutdown timing, the handler combinators, the connection
  pool, listeners, handler notification, and the client and server swarms;
- the ping, request-response, stream, bridge-client and registry protocols.

Each Rust module becomes one Dafny module. Pure code becomes datatypes,
functions and lemmas. Code that updates state in place becomes a class:
its methods state the whole new state, and lemmas or small driver methods
prove what a sequence of calls does. Sockets, channels, timers and foreign
libraries (the `url` crate, IP text parsing, bs58, yamux internals, the
registry backend) become inputs: what a poll of them gives is a parameter
of the modelled poll. The `Poll` of the asynchronous code is a datatype.
Strings are their UTF-8 bytes. A Rust panic (`assert!`, `expect`,
`unreachable!`) becomes a precondition of the modelled operation,
except the one in the negotiated stream that the Findings below correct.

## Model

| member | source | states |
|---|---|---|
| LengthDelimitedCodec.Frame | volans-stream-select/src/length_delimited.rs:179-181 | the bytes appended for a payload are its length as a 4-byte big-endian integer followed by the payload itself |
| LengthDelimitedCodec.ReadStep | volans-stream-select/src/length_delimited.rs:97-147 | one turn of the read loop keeps the reader state well formed, and every turn that goes round again consumes input |
| LengthDelimitedCodec.LengthStep | volans-stream-select/src/length_delimited.rs:97-126 | the header arm keeps the header buffer four bytes long with zeros past the read position, and a turn that goes round again consumes input |
| LengthDelimitedCodec.DataStep | volans-stream-select/src/length_delimited.rs:127-147 | the payload arm keeps the data buffer at the frame's length and the position inside it, and a turn that goes round again consumes input |
| LengthDelimitedCodec.NextFrame | volans-stream-select/src/length_delimited.rs:93-150 | a whole `poll_next` leaves the reader state well formed |
| LengthDelimitedCodec.Drain | volans-stream-select/src/length_delimited.rs:67-84 | the bytes handed to the inner stream followed by the bytes kept are the original buffer, and success is exactly an emptied buffer |
| LengthDelimitedCodec.LengthDelimited.constructor | volans-stream-select/src/length_delimited.rs:47-54 | a new codec starts in the default read state with empty buffers |
| LengthDelimitedCodec.LengthDelimited.IntoInner | volans-stream-select/src/length_delimited.rs:56-60 | taking the inner stream back is only allowed with both buffers empty, and returns the stream as it stands |
| LengthDelimitedCodec.LengthDelimited.PollNext | volans-stream-select/src/length_delimited.rs:93-150 | the item returned and the new reader state are those of `NextFrame` with the codec's header threshold; the framed stream of the negotiation builds the codec with the source's threshold of two header bytes |
| LengthDelimitedCodec.LengthDelimited.ReadOnce | volans-stream-select/src/length_delimited.rs:96-148 | one loop turn changes the state as `ReadStep` does with the codec's header threshold (two bytes as the source reads) |
| LengthDelimitedCodec.LengthDelimited.ReadHeader | volans-stream-select/src/length_delimited.rs:97-126 | the header arm as `LengthStep` with the codec's threshold: end of stream at position 0 is `None`, end of stream later is UnexpectedEof, and once the threshold is reached the length is decoded and moves to ReadData or yields an empty frame for length 0 |
| LengthDelimitedCodec.LengthDelimited.ReadPayload | volans-stream-select/src/length_delimited.rs:127-147 | the payload arm: end of stream is UnexpectedEof, and the frame is returned and the state reset exactly when `pos == len` |
| LengthDelimitedCodec.LengthDelimited.PollWriteBuffer | volans-stream-select/src/length_delimited.rs:67-84 | the result, the bytes the inner stream accepted and the bytes left at the front of the buffer are those of `Drain` |
| LengthDelimitedCodec.LengthDelimited.WriteOnce | volans-stream-select/src/length_delimited.rs:73-81 | one write removes the accepted bytes from the front of the buffer, and a write of zero bytes is a WriteZero error |
| LengthDelimitedCodec.LengthDelimited.PollWriteRaw | volans-stream-select/src/length_delimited.rs:228-237 | the reader half drains its frame buffer before writing unframed bytes, and stops on Pending or an error |
| LengthDelimitedCodec.LengthDelimited.PollReady | volans-stream-select/src/length_delimited.rs:159-166 | the buffer is drained first only when it holds at least MAX_FRAME_SIZE bytes, otherwise nothing changes |
| LengthDelimitedCodec.LengthDelimited.StartSend | volans-stream-select/src/length_delimited.rs:168-183 | a payload longer than MAX_FRAME_SIZE is refused with InvalidData and the buffer unchanged; otherwise exactly its frame is appended |
| LengthDelimitedCodec.LengthDelimited.PollFlush | volans-stream-select/src/length_delimited.rs:185-190 | flushing drains the buffer, and success leaves it empty |
| LengthDelimitedCodec.LengthDelimited.PollClose | volans-stream-select/src/length_delimited.rs:192-197 | closing drains the buffer and closes the inner stream only once it is empty |
| LengthDelimitedCodec.DrainIntoWillingSink | volans-stream-select/src/length_delimited.rs:72-83 | a sink that takes everything receives the whole buffer in order |
| LengthDelimitedCodec.DrainIntoStuckSink | volans-stream-select/src/length_delimited.rs:74-79 | a write of zero bytes is a WriteZero error and keeps the buffer |
| LengthDelimitedCodec.DataPhase | volans-stream-select/src/length_delimited.rs:127-147 | once the length is known, a payload delivered in any non-empty chunks is returned whole and the reader is back at its default state |
| LengthDelimitedCodec.WholeHeaderStep | volans-stream-select/src/length_delimited.rs:111-125 | a read that fills all four header bytes decodes the length from all of them; length 0 yields an empty frame |
| LengthDelimitedCodec.FrameRoundTrip | volans-stream-select/src/length_delimited.rs:93-150 | when the first read brings the whole header, the source's reader returns the payload of a frame written by `start_send`, however the payload is split |
| LengthDelimitedCodec.EndOfStreamAtFrameBoundary | volans-stream-select/src/length_delimited.rs:100-102 | a read of zero bytes before any header byte ends the stream cleanly |
| LengthDelimitedCodec.EndOfStreamInsideFrame | volans-stream-select/src/length_delimited.rs:100-139 | a read of zero bytes inside a header or a payload is UnexpectedEof |
| LengthDelimitedCodec.LengthFromTwoHeaderBytes | volans-stream-select/src/length_delimited.rs:111-125 | the source's reader decodes the length after two header bytes, counting the two unread bytes as zero |
| LengthDelimitedCodec.SplitHeaderMisread | volans-stream-select/src/length_delimited.rs:111-116 | the frame of `[0x41]` delivered as `[0,0]` then `[0,1,0x41]` is read by the source's reader as an empty frame |
| LengthDelimitedCodec.HeaderPhase | volans-stream-select/src/length_delimited.rs:97-126 | the intended reader collects all four header bytes over any number of reads before decoding the length |
| LengthDelimitedCodec.IntendedFrameRoundTrip | volans-stream-select/src/length_delimited.rs:93-183 | the intended reader returns the payload of every frame `start_send` writes, in whatever non-empty chunks it arrives |
| Bytes.FromBE | volans-core/src/multiaddr/protocol.rs:193-204 | the value a port, memory id or IPv6 segment is read as is below 256 to the power of its byte count |
| Bytes.ToBE | volans-core/src/multiaddr/protocol.rs:255-276 | the big-endian bytes written for a value below 256^width are exactly `width` bytes long and read back as the value |
| Bytes.ToBEOfFromBE | volans-core/src/multiaddr/protocol.rs:193-204 | every fixed-width byte string is the encoding of the value read from it, so reading and writing big-endian determine each other |
| Bytes.ToBEInjective | volans-core/src/multiaddr/protocol.rs:255-276 | two values of one width with the same big-endian bytes are equal |
| Bytes.U16ToBE | volans-core/src/multiaddr/protocol.rs:269-276 | a port is written as two bytes that read back as the port |
| Bytes.U32ToBE | volans-stream-select/src/length_delimited.rs:180 | a frame length is written as four bytes that read back as the length |
| Bytes.U64ToBE | volans-core/src/multiaddr/protocol.rs:265-268 | a memory id is written as eight bytes that read back as the id |
| Bytes.CharLen | volans-core/src/multiaddr/protocol.rs:151 | a UTF-8 character is one to four bytes long, and one byte long exactly when its lead byte is ASCII |
| Bytes.Utf8Concat | volans-core/src/multiaddr.rs:150-157 | the concatenation of two well-formed UTF-8 strings is well-formed |
| Bytes.Utf8SplitAscii | volans-core/src/multiaddr.rs:190-215 | cutting well-formed UTF-8 at an ASCII byte leaves well-formed UTF-8 on both sides |
| Bytes.AsciiIsUtf8 | volans-core/src/multiaddr/protocol.rs:335-357 | ASCII text is well-formed UTF-8 |
| Bytes.Decimal | volans-core/src/multiaddr/protocol.rs:359-381 | the decimal text of a number is a non-empty string of digits whose value is the number and that has no leading zero unless the number is 0 |
| Bytes.ParseUnsigned | volans-core/src/multiaddr/protocol.rs:104-116 | text parses as an unsigned number exactly when, after an optional `+`, it is at least one digit and nothing else and its value fits the type; the value is then below the bound |
| Bytes.ParseDecimal | volans-core/src/multiaddr/protocol.rs:104-116 | the decimal text of any value that fits the type parses back to that value |
| Bytes.DecimalHasNoSlash | volans-core/src/multiaddr/protocol.rs:359-381 | the decimal text of a number never contains `/`, so it stays one component of a multiaddr's text |
| Identity.BytesRoundTrip | volans-core/src/identity.rs:20-36 | a peer id and its byte form determine each other, and `try_from_slice` accepts the byte form of every peer id |
| Identity.TryFromSlice | volans-core/src/identity.rs:24-32 | a slice is accepted exactly when it is 32 bytes long, and then kept as it is; any other length is LengthInvalid |
| Identity.PublicKeyBytes | volans-core/src/identity.rs:12-36 | the peer id of a public key gives back the key's bytes, and is the peer id made from those bytes or read from them as a slice |
| Identity.FromStr | volans-core/src/identity.rs:120-129 | text that is not base-58 is a Bs58 error; decoded text becomes a peer id exactly when it is 32 bytes, holding those bytes, and LengthInvalid otherwise |
| Identity.FromStrOfDisplay | volans-core/src/identity.rs:42-57 | with a base-58 codec that decodes what it encodes, parsing the displayed text of a peer id gives the peer id back |
| Identity.WrongLengthRefused | volans-core/src/identity.rs:124-127 | base-58 text that decodes to any length other than 32 bytes is refused with LengthInvalid |
| Io.PollRead | volans-stream-select/src/length_delimited.rs:97-100 | a read returns at most the room it is given, taken from the front of the next scripted delivery; end of stream is an empty read, and the script shrinks by what was read |
| Io.ReadDelivered | volans-stream-select/src/length_delimited.rs:97-100 | a read from a stream that delivers some bytes takes a non-empty prefix of them, no longer than the room, and the rest of the stream delivers the remaining bytes |
| Io.ReadDeliveredAt | volans-stream-select/src/length_delimited.rs:129-131 | the same, for a stream that delivers a frame from some position on |
| Io.PollWrite | volans-stream-select/src/length_delimited.rs:72 | a write accepts at most the bytes offered, and an idle sink takes them all |
| Time.Half | volans-swarm/src/connection.rs:256-261 | halving a duration rounds down to the nanosecond |
| PercentEncoding.EncodeByte | volans-core/src/multiaddr/protocol.rs:32-44 | a byte is written as `%` and two hex digits exactly when it is non-ASCII or in the path segment encode set |
| PercentEncoding.Encode | volans-core/src/multiaddr/protocol.rs:372-376 | the encoded text of an `x-with-path` component is ASCII and contains no `/`, so it stays one piece of the multiaddr's text |
| PercentEncoding.DecodeEncode | volans-core/src/multiaddr/protocol.rs:130-133 | decoding the encoded text gives back the original bytes |
| Varint.Encode | volans-core/src/multiaddr/protocol.rs:229-235 | a varint is at least one byte, every byte but the last has the continuation bit set, and a multi-byte encoding does not end in a zero byte |
| Varint.DecodeFrom | volans-core/src/multiaddr/protocol.rs:146-149 | a successful decode consumes at least one byte |
| Varint.DecodeU32 | volans-core/src/multiaddr/protocol.rs:146 | reading a protocol code consumes at least one byte |
| Varint.DecodeUsize | volans-core/src/multiaddr/protocol.rs:149 | reading a length prefix consumes at least one byte |
| Varint.DecodeFromSuffix | volans-core/src/multiaddr/protocol.rs:146-149 | what a decode leaves unread is the end of its input |
| Varint.DecodeFromFrame | volans-core/src/multiaddr/protocol.rs:146-149 | a decode reads only the bytes it consumes: replacing what follows them changes neither the value nor where reading stops |
| Varint.DecodeSuffix | volans-core/src/multiaddr/protocol.rs:146-149 | the input of `decode::u32` and `decode::usize` is the bytes they consumed followed by the rest they return |
| Varint.DecodeU32Frame | volans-core/src/multiaddr/protocol.rs:146 | a protocol code decodes the same whatever bytes follow it |
| Varint.DecodeUsizeFrame | volans-core/src/multiaddr/protocol.rs:149 | a length prefix decodes the same whatever bytes follow it |
| Varint.EncodeHigh | volans-core/src/multiaddr/protocol.rs:229-235 | a value of eight bits or more is written as its low seven bits with the continuation bit, then the encoding of the rest |
| Varint.DecodeFromEncodeStart | volans-core/src/multiaddr/protocol.rs:146-149 | decoding the encoding of a value that fits the type's byte limit gives the value and leaves what follows |
| Varint.DecodeU32Encode | volans-core/src/multiaddr/protocol.rs:146-233 | every u32 written by `encode::u32` is read back by `decode::u32`, whatever follows it |
| Varint.DecodeUsizeEncode | volans-core/src/multiaddr/protocol.rs:149-235 | every 64-bit length written by `encode::usize` is read back by `decode::usize`, whatever follows it |
| MultiaddrProtocol.CodesDistinct | volans-core/src/multiaddr/protocol.rs:14-30 | each kind of component has its own code, two components share a code exactly when they are of the same kind, and every code is one `from_bytes` knows |
| MultiaddrProtocol.Segs | volans-core/src/multiaddr/protocol.rs:255-260 | an IPv6 address is written as two bytes per segment |
| MultiaddrProtocol.SplitAt | volans-core/src/multiaddr/protocol.rs:140-145 | the split succeeds exactly when the input holds `n` bytes, giving those `n` bytes and the rest, and is DataLessThanLen otherwise |
| MultiaddrProtocol.LengthPrefixed | volans-core/src/multiaddr/protocol.rs:148-151 | reading a varint length and that many bytes of text consumes input |
| MultiaddrProtocol.FromBytes | volans-core/src/multiaddr/protocol.rs:139-227 | reading one component consumes at least one byte |
| MultiaddrProtocol.PayloadFromBytes | volans-core/src/multiaddr/protocol.rs:147-225 | reading the payload after a code never grows the input |
| MultiaddrProtocol.NamedFromBytes | volans-core/src/multiaddr/protocol.rs:148-224 | the payload of a dns, dns4, dns6, sni or x-with-path component consumes its length prefix at least |
| MultiaddrProtocol.FixedFromBytes | volans-core/src/multiaddr/protocol.rs:164-213 | a fixed-width payload fails exactly when the input is shorter than its width, with DataLessThanLen, and otherwise leaves the bytes after that width |
| MultiaddrProtocol.EncodingStartsWithCode | volans-core/src/multiaddr/protocol.rs:229-311 | every written component starts with the varint of its code, and one without a payload is that varint alone |
| MultiaddrProtocol.PayloadLayout | volans-core/src/multiaddr/protocol.rs:229-311 | the payload written is the four octets for ip4, two big-endian bytes per segment for ip6, eight bytes for memory, two for tcp and udp, the 32 id bytes for a peer, a varint length and the bytes for a name, and nothing for the others |
| MultiaddrProtocol.FromBytesWriteBytes | volans-core/src/multiaddr/protocol.rs:139-311 | reading a written component gives it back and leaves whatever follows it |
| MultiaddrProtocol.PayloadRoundTrip | volans-core/src/multiaddr/protocol.rs:147-308 | every payload `write_bytes` writes is read back by the arm of `from_bytes` for its code |
| MultiaddrProtocol.NamedRoundTrip | volans-core/src/multiaddr/protocol.rs:148-249 | a written name reads back through its length prefix |
| MultiaddrProtocol.FixedRoundTrip | volans-core/src/multiaddr/protocol.rs:164-291 | a written fixed-width payload splits off at its width and decodes to the component |
| MultiaddrProtocol.FromBytesFrame | volans-core/src/multiaddr/protocol.rs:139-227 | reading a component depends only on its own bytes: the bytes after them can be replaced |
| MultiaddrProtocol.FromBytesHeader | volans-core/src/multiaddr/protocol.rs:146-147 | reading a component is reading its code and then the payload arm for that code |
| MultiaddrProtocol.FromBytesSuffix | volans-core/src/multiaddr/protocol.rs:139-227 | what reading a component leaves is the end of its input |
| MultiaddrProtocol.FromBytesAppend | volans-core/src/multiaddr/protocol.rs:139-227 | bytes appended after a component do not change how it reads, and are left over after it |
| MultiaddrProtocol.FromBytesConsumed | volans-core/src/multiaddr/protocol.rs:139-227 | the bytes a read consumes are a complete component on their own |
| MultiaddrProtocol.LengthPrefixedFrame | volans-core/src/multiaddr/protocol.rs:148-151 | a length-prefixed string reads the same in front of any other bytes |
| MultiaddrProtocol.ShortPayload | volans-core/src/multiaddr/protocol.rs:140-213 | a fixed-width payload cut short is DataLessThanLen |
| MultiaddrProtocol.UnknownCode | volans-core/src/multiaddr/protocol.rs:225 | a code no component has is UnknownProtocolId with that code |
| MultiaddrProtocol.Tag | volans-core/src/multiaddr/protocol.rs:335-357 | every tag is non-empty ASCII without `/` |
| MultiaddrProtocol.Display | volans-core/src/multiaddr/protocol.rs:359-381 | the text of a component starts with `/` |
| MultiaddrProtocol.FromStrParts | volans-core/src/multiaddr/protocol.rs:74-137 | a successful parse consumes at least one part and returns the parts after the ones it read |
| MultiaddrProtocol.ValueTextIsPart | volans-core/src/multiaddr/protocol.rs:359-381 | the value text of a printable component is UTF-8 without `/` |
| MultiaddrProtocol.Parts | volans-core/src/multiaddr/protocol.rs:359-381 | the text of a component splits at `/` into its tag, followed by its value for a component that has one |
| MultiaddrProtocol.FromStrPartsOfDisplay | volans-core/src/multiaddr/protocol.rs:74-137 | the parts of a printed component parse back to that component and leave the parts after them |
| MultiaddrProtocol.FromStrPartsErrors | volans-core/src/multiaddr/protocol.rs:78-135 | no parts, or a tag that needs a value with nothing after it, is InvalidProtocol; an unknown tag is UnknownProtocol with that tag |
| MultiaddrProtocol.FromIp | volans-core/src/multiaddr/protocol.rs:384-392 | an IPv4 address becomes the ip4 component with its octets, an IPv6 address the ip6 component with its segments |
| Multiaddrs.ParseEncoding | volans-core/src/multiaddr.rs:277-291 | the bytes written for well-sized components read back, component by component, as those components |
| Multiaddrs.EncodingAppend | volans-core/src/multiaddr.rs:174-188 | writing two runs of components one after the other writes the concatenation of their bytes |
| Multiaddrs.ParseAppend | volans-core/src/multiaddr.rs:277-291 | the bytes of one more component after valid bytes read as the old components followed by that one |
| Multiaddrs.PushComponents | volans-core/src/multiaddr.rs:51-56 | `push` keeps the multiaddr valid and appends the component after the ones already there |
| Multiaddrs.Rest | volans-core/src/multiaddr.rs:217-231 | what the iterator has left after `k` components is no longer than the bytes and reads as the components after the first `k` |
| Multiaddrs.RestStep | volans-core/src/multiaddr.rs:220-230 | each step of the iterator reads one component and leaves what the next step starts on |
| Multiaddrs.HeadRest | volans-core/src/multiaddr.rs:63-73 | the bytes of the first `k` components followed by the rest are the whole multiaddr |
| Multiaddrs.HeadComponents | volans-core/src/multiaddr.rs:70-73 | the bytes of the first `k` components are on their own a multiaddr of those components |
| Multiaddrs.RestOfPrefix | volans-core/src/multiaddr.rs:130-137 | after the components of a valid prefix come exactly the bytes that follow the prefix |
| Multiaddrs.Empty | volans-core/src/multiaddr.rs:27-37 | `empty` and `with_capacity` make a valid multiaddr without components |
| Multiaddrs.FromProtocol | volans-core/src/multiaddr.rs:245-254 | a well-sized component becomes a valid multiaddr holding only it |
| Multiaddrs.FromIpAddr | volans-core/src/multiaddr.rs:256-275 | an IP address becomes the valid multiaddr of its one ip4 or ip6 component |
| Multiaddrs.ProtocolStack | volans-core/src/multiaddr.rs:139-243 | `protocol_stack` yields one tag per component, in order, each that component's tag |
| Multiaddrs.Popped | volans-core/src/multiaddr.rs:58-75 | nothing for an empty multiaddr; otherwise the last component and a valid multiaddr of the ones before it |
| Multiaddrs.HeadOfEncoding | volans-core/src/multiaddr.rs:63-73 | on written components, the bytes of the first `k` are the writing of the first `k` |
| Multiaddrs.Pop | volans-core/src/multiaddr.rs:58-75 | the loop finds the last component; an empty multiaddr gives nothing and is unchanged, any other gives its last component and keeps the bytes before it, a valid multiaddr of the others |
| Multiaddrs.PopOfPush | volans-core/src/multiaddr.rs:51-75 | popping what was pushed gives back the component and exactly the bytes of the multiaddr it was pushed on |
| Multiaddrs.IterNext | volans-core/src/multiaddr.rs:217-231 | the iterator ends exactly when its bytes are used up, and otherwise yields the first component and leaves valid bytes holding the others |
| Multiaddrs.WithPeerEndsWithPeer | volans-core/src/multiaddr.rs:85-91 | success leaves a multiaddr ending with the peer, unchanged if it already ended with it and with the peer appended otherwise; failure is exactly a multiaddr ending with another peer, returned unchanged |
| Multiaddrs.Replace | volans-core/src/multiaddr.rs:97-119 | the loop writes the components again, the one at `at` as the replacement makes it, and gives nothing when `at` is past the end or the replacement refuses |
| Multiaddrs.ReplacedComponents | volans-core/src/multiaddr.rs:97-119 | a replacement that the closure accepts changes the component at `at` and leaves the count and every other component as they were |
| Multiaddrs.EndsWith | volans-core/src/multiaddr.rs:121-128 | true exactly when the other's bytes are the last bytes |
| Multiaddrs.StartsWith | volans-core/src/multiaddr.rs:130-137 | true exactly when the other's bytes are the first bytes |
| Multiaddrs.StartsEndsWith | volans-core/src/multiaddr.rs:121-137 | every multiaddr starts and ends with itself and with the empty one; after a push it starts with what it was and ends with the pushed component |
| Multiaddrs.TryFromBytes | volans-core/src/multiaddr.rs:277-291 | bytes that read component by component are kept as they are; otherwise the first reading error is returned |
| Multiaddrs.FromIter | volans-core/src/multiaddr.rs:174-188 | the loop writes the components one after another, and well-sized components read back as given |
| Multiaddrs.IndexOfSlash | volans-core/src/multiaddr.rs:195 | the first `/` of the text: a `/` with none before it |
| Multiaddrs.SplitBytes | volans-core/src/multiaddr.rs:195 | splitting at `/` always gives at least one part |
| Multiaddrs.SplitValid | volans-core/src/multiaddr.rs:195 | splitting UTF-8 text at `/` gives UTF-8 parts |
| Multiaddrs.SplitCons | volans-core/src/multiaddr.rs:195 | text without `/`, a `/` and more text split into that text followed by the parts of the rest |
| Multiaddrs.PartsStep | volans-core/src/multiaddr.rs:202-206 | reading parts is reading one component and then the parts it leaves |
| Multiaddrs.FromStr | volans-core/src/multiaddr.rs:190-212 | the loop reads component after component from the parts after the leading empty one and gives what the text parser defines |
| Multiaddrs.DisplayOfParts | volans-core/src/multiaddr/protocol.rs:359-381 | a component's text is `/` and its tag, then `/` and its value for a component with one, and neither part holds a `/` |
| Multiaddrs.SplitJoined | volans-core/src/multiaddr.rs:150-195 | parts without `/` written each after a `/` split back into the same parts |
| Multiaddrs.DisplayJoined | volans-core/src/multiaddr.rs:150-157 | the text of a multiaddr is the parts of its components, each after a `/`, none holding a `/` |
| Multiaddrs.DisplayUtf8 | volans-core/src/multiaddr/protocol.rs:359-381 | the text of a component is UTF-8 |
| Multiaddrs.DisplayAllUtf8 | volans-core/src/multiaddr.rs:150-157 | the text of a multiaddr is UTF-8 |
| Multiaddrs.PartsOfDisplay | volans-core/src/multiaddr.rs:202-206 | reading the parts of the printed components gives the components |
| Multiaddrs.SplitOfDisplay | volans-core/src/multiaddr.rs:150-200 | the printed text splits into an empty first part followed by the components' parts |
| Multiaddrs.FromStrOfDisplay | volans-core/src/multiaddr.rs:150-212 | the text of a multiaddr is UTF-8 and parses back to the same multiaddr |
| Multiaddrs.TextErrors | volans-core/src/multiaddr.rs:197-210 | non-empty text that does not start with `/` is InvalidMultiaddr; the empty text is the empty multiaddr |
| MultiaddrFromUrl.HostProtocol | volans-core/src/multiaddr/from_url.rs:36-41 | a host that reads as an IP address becomes its ip4 or ip6 component, any other host a dns component |
| MultiaddrFromUrl.SchemeProtocol | volans-core/src/multiaddr/from_url.rs:27-33 | ws and wss give the ws component, http and https the http component |
| MultiaddrFromUrl.SchemeDispatch | volans-core/src/multiaddr/from_url.rs:12-21 | a URL that does not parse is BadUrl and an unknown scheme is UnsupportedScheme, in either mode |
| MultiaddrFromUrl.HttpWsResult | volans-core/src/multiaddr/from_url.rs:23-64 | no host is BadUrl, checked first; in strict mode a user name, password, query or fragment is InformationLoss; otherwise the address is the host, the port, tls when secure, the scheme's component and the path |
| MultiaddrFromUrl.PushEncoding | volans-core/src/multiaddr.rs:51-56 | pushing a component onto written components writes one more component |
| MultiaddrFromUrl.HttpWsComponents | volans-core/src/multiaddr/from_url.rs:55-63 | the multiaddr built is valid and its components are exactly that layout |
| MultiaddrFromUrl.LayoutWellSized | volans-core/src/multiaddr/from_url.rs:55-63 | every component of the layout can be written |
| MultiaddrFromUrl.EncodedComponents | volans-core/src/multiaddr.rs:174-188 | written well-sized components are a valid multiaddr of those components |
| MultiaddrFromUrl.DefaultPorts | volans-core/src/multiaddr/from_url.rs:27-58 | without a port, ws and http use tcp 80 and no tls, wss and https use tcp 443 followed by tls |
| MultiaddrFromUrl.PathOmitted | volans-core/src/multiaddr/from_url.rs:60-62 | the path component is left out exactly for the empty path and `/` |
| MultiaddrFromUrl.LossyModes | volans-core/src/multiaddr/from_url.rs:4-79 | the lossy conversion never reports InformationLoss; on a URL with nothing to lose both conversions agree; strict InformationLoss means the URL held something to lose |
| MultiaddrFromUrl.UnixResult | volans-core/src/multiaddr/from_url.rs:66-82 | a unix URL becomes the unix component followed by the whole path |
| BridgeTransport.ScanCons | protocols/volans-bridge/src/transport.rs:260-292 | the scan stops at the first failing component and otherwise goes on from the state the component leaves |
| BridgeTransport.ParseRelayedMultiaddr | protocols/volans-bridge/src/transport.rs:253-294 | an address without a circuit is NotSupported and handed back; otherwise the result is the scan of its components, their error wrapped as the transport's own |
| BridgeTransport.NonPeers | protocols/volans-bridge/src/transport.rs:281-286 | the components kept for the relay address are exactly the non-peer components, one for each, no more; with NonPeersAppend, in order |
| BridgeTransport.NonPeersAppend | protocols/volans-bridge/src/transport.rs:281-286 | the kept components of two runs are those of the first followed by those of the second, so the order is kept |
| BridgeTransport.RelayedLayout | protocols/volans-bridge/src/transport.rs:258-293 | components with at most one peer, then the circuit, then at most one peer are read: the relay peer and destination are those peers and the relay address holds the other components before the circuit |
| BridgeTransport.RelayAddrComponents | protocols/volans-bridge/src/transport.rs:281-286 | the relay address built by pushing is a valid multiaddr of exactly the non-peer components before the circuit |
| BridgeTransport.SecondRelayPeerRefused | protocols/volans-bridge/src/transport.rs:269-273 | a second peer before the circuit is InvalidMultiaddr, whatever follows |
| BridgeTransport.AfterCircuitRefused | protocols/volans-bridge/src/transport.rs:262-289 | after the circuit, a second circuit is MultipleCircuit, a second peer or any other component is InvalidMultiaddr |
| BridgeTransport.RelayedAddress | protocols/volans-bridge/src/transport.rs:253-294 | the usual `<relay address>/peer/<relay>/circuit/peer/<dst>` reads as that relay peer, relay address and destination |
| BridgeTransport.Dial | protocols/volans-bridge/src/transport.rs:51-79 | a relayed address gives the dial request; a missing relay peer, destination or relay address is refused with its own error, checked in that order |
| BridgeTransport.Listen | protocols/volans-bridge/src/transport.rs:80-103 | an address without a circuit is NotSupported and handed back; one with a circuit gets a new listener on it with its listen request still to send, not closed and with no events |
| BridgeTransport.ListenerBackend.constructor | protocols/volans-bridge/src/transport.rs:93-101 | the listener is on the address, has its request to send, is open and has no events |
| BridgeTransport.ListenerBackend.PollEvent | protocols/volans-bridge/src/transport.rs:121-172 | a queued event comes first; a closed listener reports Closed; the listen request goes out when the sender is ready and announces the address; an incoming relayed connection is reported on the relay address with the circuit, from the source peer; the end of the channel closes the listener |
| BridgeTransport.ListenerBackend.PollClose | protocols/volans-bridge/src/transport.rs:174-184 | the Closed event is queued after the others and the listener is closed |
| BridgeTransport.ClosedStaysClosed | protocols/volans-bridge/src/transport.rs:129-132 | a closed listener with nothing queued reports Closed on every poll and stays as it is |
| BridgeTransport.Connection.Accepting | protocols/volans-bridge/src/transport.rs:301-314 | a connection still accepting the circuit, with nothing read |
| BridgeTransport.Connection.Accepted | protocols/volans-bridge/src/transport.rs:316-323 | an accepted connection holding the bytes already read |
| BridgeTransport.Connection.Accept | protocols/volans-bridge/src/transport.rs:344-420 | an accepting connection waits for the accept future, takes its read buffer when it succeeds and returns its error when it fails |
| BridgeTransport.Connection.PollRead | protocols/volans-bridge/src/transport.rs:408-437 | the bytes already read are served first, as many as fit, and the rest kept; only with none left is the substream read; never more than the buffer holds |
| BridgeTransport.Connection.PollForward | protocols/volans-bridge/src/transport.rs:338-406 | writing, flushing and closing wait for the accept and then go to the substream |
| BridgeTransport.ReadBufferSplit | protocols/volans-bridge/src/transport.rs:426-431 | the bytes served followed by the bytes kept are the old read buffer, and at least one but no more than fit are served |
| SelectProtocol.ProtocolFromBytes | volans-stream-select/src/protocol.rs:21-41 | a name is accepted exactly when it starts with `/` and is UTF-8, and is kept as it is; any other is InvalidProtocol |
| SelectProtocol.ProtocolFromStr | volans-stream-select/src/protocol.rs:43-53 | text is accepted exactly when it starts with `/`, and is kept as it is; any other is InvalidProtocol |
| SelectProtocol.FromStrAgreesWithFromBytes | volans-stream-select/src/protocol.rs:21-53 | the conversion from text and the one from bytes agree on every text |
| SelectProtocol.ToIoError | volans-stream-select/src/protocol.rs:65-73 | an I/O error is handed back as it was, an invalid message becomes InvalidData and an invalid protocol InvalidInput |
| SelectProtocol.IoErrorRoundTrip | volans-stream-select/src/protocol.rs:57-68 | an I/O error wrapped as a protocol error and converted back is the same error |
| SelectProtocol.Encode | volans-stream-select/src/protocol.rs:81-93 | "na" is written as `na`, a protocol as its name's bytes |
| SelectProtocol.Decode | volans-stream-select/src/protocol.rs:95-104 | `na` and only `na` is NotAvailable; a payload starting with `/` is a protocol of that name when UTF-8 and InvalidProtocol otherwise; anything else is InvalidMessage |
| SelectProtocol.DecodeEncode | volans-stream-select/src/protocol.rs:81-104 | every message decodes back from its encoding |
| SelectProtocol.EncodeDecode | volans-stream-select/src/protocol.rs:81-104 | every payload that decodes encodes back to itself |
| SelectProtocol.PollStream | volans-stream-select/src/protocol.rs:226-243 | a pending or ended frame stream is passed on, an I/O error is wrapped, and a frame is decoded |
| SelectProtocol.MapIo | volans-stream-select/src/protocol.rs:140-159 | a sink result keeps its readiness and value and has its I/O error wrapped |
| SelectProtocol.MessageIo.constructor | volans-stream-select/src/protocol.rs:114-121 | a new message stream wraps a new codec in the default read state with empty buffers |
| SelectProtocol.MessageIo.StartSend | volans-stream-select/src/protocol.rs:144-151 | the frame of the message's encoding is queued, unless it is longer than the largest frame, which is refused and queues nothing |
| SelectProtocol.MessageIo.PollReady | volans-stream-select/src/protocol.rs:140-142 | the codec's `poll_ready`, with its I/O error wrapped |
| SelectProtocol.MessageIo.PollFlush | volans-stream-select/src/protocol.rs:153-155 | the codec's `poll_flush`, with its I/O error wrapped |
| SelectProtocol.MessageIo.PollClose | volans-stream-select/src/protocol.rs:157-159 | the codec's `poll_close`, with its I/O error wrapped |
| SelectProtocol.MessageIo.PollNext | volans-stream-select/src/protocol.rs:168-170 | the next frame is read as the source's codec reads it, with the length decoded after two header bytes, and decoded; the reader state moves on accordingly |
| SelectProtocol.MessageIo.IntoInner | volans-stream-select/src/protocol.rs:129-131 | with both buffers empty the inner stream is handed back as it stands |
| SelectProtocol.MessageRoundTrip | volans-stream-select/src/protocol.rs:144-170 | as the source reads: a message sent is the next message received, and the reader is back at its default state, when the first read brings its whole header, however the rest of the frame is split |
| DialerSelect.InitialArm | volans-stream-select/src/dialer_select.rs:55-65 | the Initial arm waits for the channel, then takes the next protocol or fails when there is none |
| DialerSelect.SendArm | volans-stream-select/src/dialer_select.rs:66-89 | the SendProtocol arm waits for the channel, refuses a name without `/`, sends the proposal and then flushes it when more protocols follow, or returns it as Expecting when it is the last |
| DialerSelect.FlushArm | volans-stream-select/src/dialer_select.rs:90-100 | the FlushProtocol arm waits for the flush and then awaits the answer |
| DialerSelect.AwaitArm | volans-stream-select/src/dialer_select.rs:101-130 | the AwaitProtocol arm: the echo completes the negotiation, "na" moves to the next protocol or fails, the end of the stream fails, any other message goes back to Initial |
| DialerSelect.DialerStep | volans-stream-select/src/dialer_select.rs:53-133 | each turn takes the state out and runs the arm for it, and the outcome it gives is well formed |
| DialerSelect.DialerPoll | volans-stream-select/src/dialer_select.rs:51-134 | a poll finishes exactly when it leaves the future done |
| DialerSelect.StepKeepsOrder | volans-stream-select/src/dialer_select.rs:63-122 | a turn takes protocols only from the front of the iterator |
| DialerSelect.PollKeepsOrder | volans-stream-select/src/dialer_select.rs:51-134 | a poll takes protocols in the iterator's order, without skipping or reordering any |
| DialerSelect.DialerSelectFuture.constructor | volans-stream-select/src/dialer_select.rs:25-32 | a new future holds the protocols and the channel and starts in Initial |
| DialerSelect.DialerSelectFuture.Poll | volans-stream-select/src/dialer_select.rs:51-134 | the loop gives the output and the fields of `DialerPoll`; polling a finished future is excluded, as it panics |
| DialerSelect.DialerSelectFuture.PollOnce | volans-stream-select/src/dialer_select.rs:54-132 | one turn of the loop changes the fields as `DialerStep` does |
| DialerSelect.DialerSelectFuture.PollReady | volans-stream-select/src/dialer_select.rs:56-91 | polling the channel for readiness or a flush changes it as the channel model says |
| DialerSelect.DialerSelectFuture.Send | volans-stream-select/src/dialer_select.rs:66-89 | the SendProtocol arm changes the fields as `SendArm` says |
| DialerSelect.DialerSelectFuture.Await | volans-stream-select/src/dialer_select.rs:101-130 | the AwaitProtocol arm changes the fields as `AwaitArm` says |
| DialerSelect.EmptyListFails | volans-stream-select/src/dialer_select.rs:63 | with nothing to propose the dialer fails and sends nothing |
| DialerSelect.InvalidNameAborts | volans-stream-select/src/dialer_select.rs:75 | a name without the leading `/` aborts with InvalidProtocol when its turn comes, and sends nothing |
| DialerSelect.LastProposalIsOptimistic | volans-stream-select/src/dialer_select.rs:80-88 | the last proposal is sent and returned at once as Expecting, without waiting for an answer |
| DialerSelect.PollReturns | volans-stream-select/src/dialer_select.rs:53-133 | a turn that returns ends the poll with its output |
| DialerSelect.PollGoesOn | volans-stream-select/src/dialer_select.rs:53-133 | a turn that goes on leaves the rest of the poll to the next turn |
| DialerSelect.ProposalAnswered | volans-stream-select/src/dialer_select.rs:66-124 | a proposal that is not the last is sent, flushed and answered: the echo completes the negotiation, "na" proposes the next protocol |
| DialerSelect.Answer | volans-stream-select/src/listener_select.rs:86-105 | a listener echoes a name it supports and answers "na" otherwise |
| DialerSelect.FirstSupported | volans-stream-select/src/dialer_select.rs:113-124 | the first protocol in the range that the listener supports, with none before it supported; nothing when none is |
| DialerSelect.Intended | volans-stream-select/src/dialer_select.rs:51-134 | the intended outcome is always a success: the first supported proposal before the last, or the last as Expecting |
| DialerSelect.IntendedSkips | volans-stream-select/src/dialer_select.rs:119-124 | an unsupported proposal before the last hands the outcome on to the next, having been sent |
| DialerSelect.ProposalTurn | volans-stream-select/src/dialer_select.rs:66-124 | a supported proposal before the last completes the poll, an unsupported one goes on with the next |
| DialerSelect.StartsWithFirst | volans-stream-select/src/dialer_select.rs:25-65 | a new future proposes its first protocol first |
| DialerSelect.DialerAgainstListener | volans-stream-select/src/dialer_select.rs:51-134 | the dialer, against a listener that echoes what it supports, reaches the intended outcome and sends exactly the intended proposals |
| Negotiation.RepliesAreAnswers | volans-stream-select/src/listener_select.rs:86-105 | what the listener answers to each proposal is what the dialer reads as its answer |
| Negotiation.FirstSupportedExtends | volans-stream-select/src/dialer_select.rs:113-124 | the first supported proposal before the last is the first overall; with none before, the last decides |
| Negotiation.DialerSide | volans-stream-select/src/dialer_select.rs:51-134 | the dialer against the listener's replies reaches the intended outcome |
| Negotiation.LastReplySettles | volans-stream-select/src/negotiated.rs:60-100 | the listener's reply to the last proposal settles the dialer's Expecting stream: the echo completes it and "na" fails it |
| Negotiation.NegotiateSettles | volans-stream-select/src/dialer_select.rs:113-124 | when a proposal before the last is supported, both sides settle on the first such with the stream completed, the dialer having proposed and the listener replied up to it |
| Negotiation.DialerFallsToLast | volans-stream-select/src/dialer_select.rs:113-124 | with no supported proposal before the last, the dialer proposes them all and returns the last as Expecting |
| Negotiation.IntendedAtLast | volans-stream-select/src/listener_select.rs:86-147 | with no supported proposal before the last, the listener's outcome is the last proposal if supported and a failure otherwise, after a reply to each |
| Negotiation.ListenerFallsToLast | volans-stream-select/src/listener_select.rs:86-147 | the listener run against such a dialer replies to every proposal and reaches that outcome |
| Negotiation.NegotiateFallsToLast | volans-stream-select/src/negotiated.rs:60-100 | in that case the listener's reply to the last proposal decides both sides: the echo completes the dialer's Expecting stream, "na" fails both |
| Negotiation.Negotiate | volans-stream-select/src/dialer_select.rs:51-134 | a dialer and a listener settle on the first proposal before the last that the listener supports, both with the stream completed; otherwise the dialer expects the last, which the listener's echo confirms and its "na" fails |
| NegotiatedStream.NegotiationToIoError | volans-stream-select/src/negotiated.rs:124-131 | a protocol error is converted as protocol errors are; Failed becomes an error of kind Other |
| NegotiatedStream.IoErrorThroughNegotiation | volans-stream-select/src/negotiated.rs:118-131 | an I/O error turned into a negotiation error and back is the same error |
| NegotiatedStream.NegotiationErrorKinds | volans-stream-select/src/negotiated.rs:124-131 | an invalid message comes out as InvalidData, an invalid name as InvalidInput, failure as Other |
| NegotiatedStream.PollNegotiatedAsWritten | volans-stream-select/src/negotiated.rs:55-107 | as written, wherever it does not panic: success leaves the stream completed, Pending leaves it as it was, and an error leaves it as it was or spent |
| NegotiatedStream.AsWrittenEchoAfterStuckFlush | volans-stream-select/src/negotiated.rs:62-97 | as written, an echo read after a flush whose WriteZero left the proposal queued reaches `into_inner`: the stuck write keeps the whole frame in the codec's write buffer, which `into_inner` requires empty (length_delimited.rs:56-60) |
| NegotiatedStream.PollNegotiatedSpec | volans-stream-select/src/negotiated.rs:55-107 | corrected: success leaves the stream completed, Pending leaves it as it was, an error leaves it as it was or spent, and a stream whose proposal is still queued is never completed |
| NegotiatedStream.Negotiated.Completed | volans-stream-select/src/negotiated.rs:21-25 | a stream whose negotiation is over, on the given channel, with nothing written |
| NegotiatedStream.Negotiated.Expecting | volans-stream-select/src/negotiated.rs:27-31 | a stream that still expects the echo of its protocol, on the given channel, with nothing written |
| NegotiatedStream.Negotiated.PollNegotiated | volans-stream-select/src/negotiated.rs:55-107 | corrected: flushing first, with a WriteZero error tolerated, and then reading the answer when still expecting, changes the state and channel as `PollNegotiatedSpec` says; an echo after a flush that left the proposal queued is the WriteZero error |
| NegotiatedStream.Negotiated.PollRead | volans-stream-select/src/negotiated.rs:137-152 | corrected: a completed stream reads the inner stream; otherwise the negotiation is finished first as `PollNegotiatedSpec` says, and its error or Pending is passed on |
| NegotiatedStream.Negotiated.PollWrite | volans-stream-select/src/negotiated.rs:177-187 | a completed stream writes to the inner stream; while expecting, the frames still queued (the optimistic proposal among them) are drained first, and their Pending or error is returned with nothing written; exactly the bytes the inner stream accepted are written |
| NegotiatedStream.Negotiated.PollFlush | volans-stream-select/src/negotiated.rs:201-207 | a flush goes to the inner stream in either state |
| NegotiatedStream.Negotiated.PollClose | volans-stream-select/src/negotiated.rs:209-216 | closing flushes and then closes, and the stream is closed once the flush succeeded |
| NegotiatedStream.CompletedStaysCompleted | volans-stream-select/src/negotiated.rs:62-74 | a completed stream stays completed, and fails exactly when its flush fails with an error other than WriteZero |
| NegotiatedStream.ExpectingAnswered | volans-stream-select/src/negotiated.rs:77-103 | while expecting, after a flush that sent the proposal (a WriteZero of the inner stream's own flush included), the echo of the protocol completes the stream and any other message fails it |
| NegotiatedStream.ExpectingStuckAnswered | volans-stream-select/src/negotiated.rs:62-103 | corrected: after a flush that left the proposal queued, the echo is the WriteZero error and any other message fails the negotiation, the stream spent either way |
| NegotiatedStream.ExpectingEnd | volans-stream-select/src/negotiated.rs:80-86 | the end of the stream while expecting is UnexpectedEof |
| NegotiatedStream.NegotiatedComplete.constructor | volans-stream-select/src/negotiated.rs:33-35 | the future holds the stream |
| NegotiatedStream.NegotiatedComplete.PollFuture | volans-stream-select/src/negotiated.rs:224-244 | corrected: the future finishes the negotiation as `PollNegotiatedSpec` says: Pending keeps the stream, success hands it out and an error is returned; polling it after it finished is excluded, as it panics |
| ListenerSelect.Supported | volans-stream-select/src/listener_select.rs:30-36 | the entries kept are some of the names, each with the protocol of its own name |
| ListenerSelect.SupportedKeeps | volans-stream-select/src/listener_select.rs:30-36 | a name is kept exactly when it starts with `/` |
| ListenerSelect.Match | volans-stream-select/src/listener_select.rs:89-95 | the name of the first entry whose protocol is the one proposed, and nothing when no entry has it |
| ListenerSelect.MatchSupported | volans-stream-select/src/listener_select.rs:30-95 | a proposal matches exactly when its name is supported, and the match is its own name |
| ListenerSelect.Reply | volans-stream-select/src/listener_select.rs:96-100 | the echo of a supported proposal, "na" for any other |
| ListenerSelect.RecvArm | volans-stream-select/src/listener_select.rs:74-109 | the RecvMessage arm: the end of the stream fails, a proposal gets its reply queued, "na" is an invalid message |
| ListenerSelect.SendArm | volans-stream-select/src/listener_select.rs:110-130 | the SendMessage arm waits for the channel, sends the reply and then flushes it |
| ListenerSelect.FlushArm | volans-stream-select/src/listener_select.rs:131-151 | the Flush arm: once flushed, an echo completes the negotiation and "na" goes back to receiving |
| ListenerSelect.ListenerStep | volans-stream-select/src/listener_select.rs:72-154 | each turn takes the state out and runs the arm for it, and the outcome it gives is well formed |
| ListenerSelect.ListenerPoll | volans-stream-select/src/listener_select.rs:70-155 | a poll finishes exactly when it leaves the future done, and never changes the entries |
| ListenerSelect.ListenerSelectFuture.constructor | volans-stream-select/src/listener_select.rs:26-44 | a new future keeps the names that parse and starts by receiving |
| ListenerSelect.ListenerSelectFuture.Poll | volans-stream-select/src/listener_select.rs:70-155 | the loop gives the output and the fields of `ListenerPoll`; polling a finished future is excluded, as it panics |
| ListenerSelect.ListenerSelectFuture.PollOnce | volans-stream-select/src/listener_select.rs:73-153 | one turn of the loop changes the fields as `ListenerStep` does |
| ListenerSelect.ListenerSelectFuture.PollReady | volans-stream-select/src/listener_select.rs:115-132 | polling the channel for readiness or a flush changes it as the channel model says |
| ListenerSelect.ListenerSelectFuture.Recv | volans-stream-select/src/listener_select.rs:74-109 | the RecvMessage arm, with its search as a loop, changes the fields as `RecvArm` says |
| ListenerSelect.ListenerSelectFuture.FindMap | volans-stream-select/src/listener_select.rs:89-95 | the loop over the entries finds what `Match` defines |
| ListenerSelect.PollReturns | volans-stream-select/src/listener_select.rs:72-154 | a turn that returns ends the poll with its output |
| ListenerSelect.PollGoesOn | volans-stream-select/src/listener_select.rs:72-154 | a turn that goes on leaves the rest of the poll to the next turn |
| ListenerSelect.EndFails | volans-stream-select/src/listener_select.rs:77-79 | the end of the stream fails the negotiation |
| ListenerSelect.NotAvailableIsInvalid | volans-stream-select/src/listener_select.rs:107 | "na" received is an invalid message, and nothing is sent |
| ListenerSelect.ProposalReceived | volans-stream-select/src/listener_select.rs:74-151 | a supported proposal is echoed and, once flushed, its name returned with the stream completed; an unsupported one is answered "na" and the listener waits for the next |
| ListenerSelect.ReplyIsAnswer | volans-stream-select/src/listener_select.rs:30-100 | the listener echoes exactly the names it supports |
| ListenerSelect.AgainstDialer | volans-stream-select/src/listener_select.rs:26-44 | the listener receiving the dialer's proposals over a channel that loses nothing |
| ListenerSelect.Intended | volans-stream-select/src/listener_select.rs:70-155 | the intended outcome is always ready: the first supported proposal, or failure at the end of the stream |
| ListenerSelect.IntendedSkips | volans-stream-select/src/listener_select.rs:96-150 | an unsupported proposal is answered "na" and hands the outcome on to the next |
| ListenerSelect.ProposalTurn | volans-stream-select/src/listener_select.rs:74-151 | one proposal of the run received and answered: a supported one completes the poll with its echo sent, an unsupported one is answered "na" and the poll goes on |
| ListenerSelect.ListenerAgainstDialer | volans-stream-select/src/listener_select.rs:70-155 | the listener fed the dialer's proposals reaches the intended outcome and sends exactly the intended replies |
| Upgrade.MapUpgradeError | volans-core/src/upgrade/error.rs:11-20 | a negotiation error stays as it is, an upgrade's own error is mapped |
| Upgrade.MapUpgradeErrorCompose | volans-core/src/upgrade/error.rs:11-27 | mapping twice is mapping once by the composition |
| Upgrade.SelectInfo | volans-core/src/upgrade/select.rs:31-44 | the combined list holds every info of both upgrades |
| Upgrade.SelectInfoOrder | volans-core/src/upgrade/select.rs:31-44 | A's infos come first, in A's order and tagged Left, then B's, in B's order and tagged Right |
| Upgrade.Lefts | volans-core/src/upgrade/select.rs:31-44 | the Left infos of a list are some of its entries |
| Upgrade.Rights | volans-core/src/upgrade/select.rs:31-44 | the Right infos of a list are some of its entries |
| Upgrade.SelectInfoSplits | volans-core/src/upgrade/select.rs:31-44 | splitting the combined list by side gives back A's list and B's list |
| Upgrade.SelectUpgrade | volans-core/src/upgrade/select.rs:56-78 | a Left info is upgraded by A as the First future, a Right info by B as the Second |
| Upgrade.EitherInfo | volans-core/src/upgrade/either.rs:22-27 | an Either upgrade offers exactly its own side's infos, in order, tagged with that side |
| Upgrade.EitherUpgrade | volans-core/src/upgrade/either.rs:39-71 | the upgrade of the side the info comes from runs; an info from the other side is excluded, as it panics |
| Upgrade.EitherInfoMatchesSide | volans-core/src/upgrade/either.rs:22-49 | every info an Either upgrade offers is from its own side, so handing it back never panics |
| Upgrade.ApplyNegotiation | volans-core/src/upgrade/apply.rs:14-145 | a dialer negotiates with the dialer machine, every other endpoint with the listener machine, over the upgrade's infos |
| Upgrade.PollNegotiation | volans-core/src/upgrade/apply.rs:90-96 | a pending negotiation can be polled again, and the negotiation keeps its role |
| Upgrade.UpgradeArm | volans-core/src/upgrade/apply.rs:102-117 | a pending upgrade keeps its name; a value ends the future; a failure ends it as Apply |
| Upgrade.ApplyPoll | volans-core/src/upgrade/apply.rs:83-123 | the negotiation runs first, its errors as Select; its info starts the upgrade, which runs in the same poll; a finished future is spent |
| Upgrade.UpgradeApply.constructor | volans-core/src/upgrade/apply.rs:14-66 | a new future starts with the negotiation for its role |
| Upgrade.UpgradeApply.Poll | volans-core/src/upgrade/apply.rs:83-123 | a poll gives the output and state of `ApplyPoll`; polling a finished future is excluded, as it panics |
| Transport.MapUpgrade | volans-core/src/transport.rs:134-154 | only an Incoming event's upgrade changes; every event keeps its kind and its other fields |
| Transport.MapErr | volans-core/src/transport.rs:156-175 | only an Error event and the error of a Closed event change; every event keeps its kind and its other fields |
| Transport.MapsCommute | volans-core/src/transport.rs:134-175 | mapping the upgrade and mapping the error can be done in either order |
| Transport.MapError | volans-core/src/transport.rs:190-201 | NotSupported keeps its address and Other has its error mapped |
| Transport.MapFromError | volans-core/src/transport.rs:184-201 | mapping a wrapped error is wrapping the mapped error |
| Transport.Choose | volans-core/src/transport/choice.rs:35-91 | the first transport's success or own error decides, tagged Left; only when it does not support the address does the second decide, tagged Right |
| Transport.SecondOnlyOnNotSupported | volans-core/src/transport/choice.rs:40-75 | when the first transport decides, what the second would do does not matter |
| Transport.FallbackIsSecond | volans-core/src/transport/choice.rs:46-90 | a first transport that does not support the address hands over to the second, whose outcome is returned tagged Right |
| Transport.PollChoiceFuture | volans-core/src/transport/choice.rs:151-161 | the inner future's readiness is kept, and its value and error are tagged with its side |
| Transport.PollChoiceEvent | volans-core/src/transport/choice.rs:120-134 | the inner listener's event, with its upgrade and error tagged with its side |
| Transport.LeftEventsAreLeft | volans-core/src/transport/choice.rs:124-127 | an event from the left listener is tagged Left in its upgrade and its errors |
| Transport.PollChoiceClose | volans-core/src/transport/choice.rs:113-118 | the inner close result with its error tagged with its side |
| TcpTransport.MultiaddrToSocketAddr | transports/volans-tcp/src/lib.rs:135-156 | the loop popping components from the end gives the socket address that `SocketAddrOf` reads from the components |
| TcpTransport.IpToMultiaddr | transports/volans-tcp/src/lib.rs:255-257 | the address written is valid and holds exactly the IP component and the tcp port |
| TcpTransport.SocketAddrOfLayout | transports/volans-tcp/src/lib.rs:135-156 | an IP address followed only by peers and one tcp port reads as that IP and port, whatever comes before the IP |
| TcpTransport.SocketAddrOfSound | transports/volans-tcp/src/lib.rs:135-156 | whatever is read comes from such a layout: the IP is one of the components and only peers and the one port follow it |
| TcpTransport.SocketAddrRoundTrip | transports/volans-tcp/src/lib.rs:135-257 | the address written for an IP and a port reads back as them |
| TcpTransport.TwoPortsRefused | transports/volans-tcp/src/lib.rs:147-148 | a second tcp component after the IP is refused |
| TcpTransport.NoPortRefused | transports/volans-tcp/src/lib.rs:139-146 | an IP with no port after it is refused |
| TcpTransport.OtherRefused | transports/volans-tcp/src/lib.rs:152 | a component that is not an IP, a tcp port or a peer, met before the IP, is refused |
| TcpTransport.DialTarget | transports/volans-tcp/src/lib.rs:92-95 | a dial goes ahead exactly when the address reads with a port other than 0 and an IP that is not unspecified, and is NotSupported otherwise |
| TcpTransport.Dial | transports/volans-tcp/src/lib.rs:91-101 | the dial connects to what the guard lets through |
| TcpTransport.Listen | transports/volans-tcp/src/lib.rs:103-108 | any address that reads is bound, port 0 and the unspecified IP included; any other is NotSupported |
| WsTransport.ParseWsAddr | transports/volans-ws/src/lib.rs:176-186 | the inner address read is a well-formed address with fewer components than the one parsed |
| WsTransport.ParseWsAddrTrailingWs | transports/volans-ws/src/lib.rs:176-186 | an address ending with ws gives the address before it and no path |
| WsTransport.ParseWsAddrWithPath | transports/volans-ws/src/lib.rs:176-183 | an address ending with ws and a path gives the address before both, and the path |
| WsTransport.ParseWsAddrOther | transports/volans-ws/src/lib.rs:176-186 | an address is read only when it ends with ws, or with ws and a path |
| WsTransport.WithWsRestores | transports/volans-ws/src/lib.rs:176-186 | with no path, putting ws back on the inner address gives the components of the address parsed |
| WsTransport.WithWsRestoresBytes | transports/volans-ws/src/lib.rs:176-186 | on a written address, putting ws back on the inner address gives exactly the bytes parsed |
| WsTransport.DialTarget | transports/volans-ws/src/lib.rs:92-105 | not a websocket address is NotSupported of the whole address; a request path the URI parser refuses is its error as Other; otherwise the inner address is dialled under the TCP guard, whose NotSupported names the inner address, with the path, the empty text when there is none |
| WsTransport.ListenTarget | transports/volans-ws/src/lib.rs:118-131 | not a websocket address is NotSupported; an inner address TCP cannot read is NotSupported of the inner address; otherwise the socket address read is listened on and the path kept |
| WsTransport.DialOverTcp | transports/volans-ws/src/lib.rs:92-105 | a websocket address over `ip:port`, with or without a path, dials `ip:port` with that path exactly when the port is not 0 and the IP is specified; `/ip4/0.0.0.0/tcp/80/ws` is NotSupported of its inner address |
| WsStream.Fill | transports/volans-ws/src/stream.rs:38-49 | the loop stops at an item with bytes left, or returns an error or 0 at the end of the stream exactly when the stream gave that |
| WsStream.FillJoins | transports/volans-ws/src/stream.rs:38-49 | the bytes the loop moves into the current item are those of the items it took, in order |
| WsStream.Copy | transports/volans-ws/src/stream.rs:52 | as many bytes as fit are copied from the cursor on, and the cursor moves past them |
| WsStream.Read | transports/volans-ws/src/stream.rs:30-53 | a read reports the count of the bytes it copied, never more than fit, and copies nothing when Pending or failing |
| WsStream.ReadJoins | transports/volans-ws/src/stream.rs:30-53 | what was left of the current item and the items the read took are the bytes copied followed by what is left now |
| WsStream.ZeroOnlyAtEnd | transports/volans-ws/src/stream.rs:47 | a read into a non-empty buffer reports 0 bytes only at the end of the stream |
| WsStream.ReadsInOrder | transports/volans-ws/src/stream.rs:30-53 | two reads in a row hand out the bytes of the items in order, each byte once |
| WsStream.RwStreamSink.constructor | transports/volans-ws/src/stream.rs:17-22 | a new stream has no current item and has sent nothing |
| WsStream.RwStreamSink.PollRead | transports/volans-ws/src/stream.rs:30-53 | a read gives the result, bytes and cursor that `Read` defines |
| WsStream.RwStreamSink.PollWrite | transports/volans-ws/src/stream.rs:61-69 | once the sink is ready the whole buffer is sent as one item and its length reported; an error is returned and nothing sent |
| Muxing.PollInner | muxers/volans-muxing/src/lib.rs:33-37 | the next inbound stream is passed through, the end of the inbound side becomes Closed, and it is Pending exactly when the connection is |
| Muxing.Muxer.constructor | muxers/volans-muxing/src/lib.rs:25-31 | a new muxer has no buffered stream and no waker kept |
| Muxing.Muxer.PollInbound | muxers/volans-muxing/src/lib.rs:49-61 | the oldest buffered stream is taken first; with none, the connection's answer is returned and a Pending keeps the waker |
| Muxing.Muxer.Poll | muxers/volans-muxing/src/lib.rs:40-90 | an error is returned; a new stream is appended and the kept waker woken while fewer than 256 are buffered, otherwise dropped; every other case is Pending |
| Muxing.FullBufferDrops | muxers/volans-muxing/src/lib.rs:75-80 | with 256 streams buffered a new one is dropped and the buffer is unchanged |
| Muxing.BufferedInOrder | muxers/volans-muxing/src/lib.rs:49-90 | two streams buffered by `poll` come out of `poll_inbound` first in, first out, and the buffer is empty again |
| Muxing.ProtocolInfo | muxers/volans-muxing/src/lib.rs:127-129 | exactly one protocol, "/v1/muxing", is offered |
| Muxing.EndsDiffer | muxers/volans-muxing/src/lib.rs:140-157 | the two ends of one connection take different roles |
| Yamux.NextInbound | muxers/volans-yamux/src/lib.rs:64-65 | the next inbound stream is passed through, the end of the inbound side becomes Closed, and it is Pending exactly when the connection is |
| Yamux.Muxer.constructor | muxers/volans-yamux/src/lib.rs:26-32 | a new muxer has no buffered stream and no waker kept |
| Yamux.Muxer.PollInbound | muxers/volans-yamux/src/lib.rs:44-53 | the oldest buffered stream is taken first; with none it is Pending and keeps the waker, without polling the connection |
| Yamux.Muxer.Poll | muxers/volans-yamux/src/lib.rs:35-82 | an error is returned; a new stream is appended and the kept waker woken while fewer than 256 are buffered, otherwise dropped; every other case is Pending |
| Yamux.FullBufferDrops | muxers/volans-yamux/src/lib.rs:67-72 | with 256 streams buffered a new one is dropped and the buffer is unchanged |
| Yamux.BufferedInOrder | muxers/volans-yamux/src/lib.rs:44-82 | two streams buffered by `poll` come out of `poll_inbound` first in, first out, and the buffer is empty again |
| Yamux.ProtocolInfo | muxers/volans-yamux/src/lib.rs:109-111 | exactly one protocol, "/v1/yamux", is offered |
| Yamux.EndsDiffer | muxers/volans-yamux/src/lib.rs:122-137 | the two ends of one connection still take different modes |
| CoreConnection.ToEndpoint | volans-core/src/connection.rs:10-63 | a dialer point gives the dialer endpoint and a listener point the listener endpoint, both ways |
| CoreConnection.Not | volans-core/src/connection.rs:32-41 | negation gives the other side |
| CoreConnection.ExactlyOneSide | volans-core/src/connection.rs:17-51 | exactly one of `is_dialer` and `is_listener` holds on points and on endpoints, and they agree across `to_endpoint` |
| CoreConnection.NotInvolution | volans-core/src/connection.rs:32-51 | negating twice is the identity and negation swaps `is_dialer` with `is_listener` |
| SwarmConnection.Successor | volans-swarm/src/connection.rs:28-36 | `fetch_add(1)` on a 64-bit `usize`: one more, and 0 after the largest value |
| SwarmConnection.ConnectionIdCounter.constructor | volans-swarm/src/connection.rs:28 | the counter starts at 1 |
| SwarmConnection.ConnectionIdCounter.Next | volans-swarm/src/connection.rs:33-37 | the id handed out is the counter's old value, and the counter moves to its wrapping successor |
| SwarmConnection.SequentialIdsIncrease | volans-swarm/src/connection.rs:28-37 | two ids taken one after the other increase strictly while the counter does not wrap |
| SwarmConnection.ToStreamUpgradeError | volans-swarm/src/connection.rs:124-132 | a failed negotiation becomes NegotiationFailed; an I/O protocol error keeps its I/O error; any other protocol error becomes an `Other` I/O error carrying its text |
| SwarmConnection.NegotiationNeverTimeout | volans-swarm/src/connection.rs:124-132 | no negotiation error becomes a Timeout or an Apply error |
| SwarmConnection.UpgradeStepOutcome | volans-swarm/src/connection.rs:139-159 | a fired timeout wins and gives Timeout; the poll is ready exactly when the timer fired or the upgrade is ready; a ready poll hands out the user data and keeps none; a pending one keeps it |
| SwarmConnection.StreamUpgrade.constructor | volans-swarm/src/connection.rs:65-107 | a new upgrade holds its user data |
| SwarmConnection.StreamUpgrade.Poll | volans-swarm/src/connection.rs:139-159 | the new user data and the outcome are those of the upgrade step; a ready poll without user data panics, so it is excluded |
| SwarmConnection.UserDataOnce | volans-swarm/src/connection.rs:143-156 | once an outcome is out no user data is left, so a second ready poll is excluded |
| SwarmConnection.PollRequested | volans-swarm/src/connection.rs:204-226 | Done is a success; an expired wait gives the user data back as an error and leaves Done; a pending wait keeps its parts and a waker |
| SwarmConnection.ExtractedResolves | volans-swarm/src/connection.rs:181-226 | an extracted request resolves successfully whatever the timer says; a waiting one is ready exactly when its timer fires, and then with its own user data |
| SwarmConnection.NewRequestedWaits | volans-swarm/src/connection.rs:173-226 | a new request is not ready before its timer fires, and extracting it hands out its own upgrade, user data and timeout and leaves Done |
| SwarmConnection.PendingPollKeepsParts | volans-swarm/src/connection.rs:214-222 | a pending poll keeps the upgrade, user data and timer that a later extract hands out |
| SwarmConnection.Fraction | volans-swarm/src/connection.rs:256-262 | the duration settled on is at most the one asked for, can be added to the start, is the one asked for when that fits, and is otherwise within a factor of two of the largest that fits |
| SwarmConnection.CheckedAddFraction | volans-swarm/src/connection.rs:256-262 | the halving loop settles on `Fraction` |
| SwarmConnection.ComputeNewShutdown | volans-swarm/src/connection.rs:238-254 | keep-alive gives no shutdown; a zero idle timeout gives Asap; a running timer is kept; otherwise a timer no longer than the idle timeout that can be represented, and exactly the idle timeout when that fits |
| SwarmConnection.NextShutdown | volans-swarm/src/connection/inbound.rs:140-158 | no shutdown while anything is in progress or the handler keeps the connection alive; Asap for a zero timeout; a running timer is kept; otherwise a new timer no longer than the idle timeout |
| SwarmError.DialErrorOf | volans-swarm/src/error.rs:61-72 | each pending-connection error becomes the dial error of the same name, with its payload |
| SwarmError.ListenErrorOf | volans-swarm/src/error.rs:107-120 | each pending-connection error becomes the listen error of the same name; a transport error keeps its error and drops its address |
| SwarmError.DialErrorOfInjective | volans-swarm/src/error.rs:61-120 | distinct pending errors give distinct dial errors, and neither conversion yields Denied, NoAddress or PeerCondition |
| SwarmError.ListenErrorOfForgetsAddress | volans-swarm/src/error.rs:107-120 | two pending errors give the same listen error exactly when they are equal or are transport errors differing only in address |
| SwarmHandler.IntoInnerRebuilds | volans-swarm/src/handler.rs:136-138 | the three parts handed out rebuild the protocol |
| SwarmHandler.MappersCommute | volans-swarm/src/handler.rs:131-160 | the two mappers commute, and neither changes a timeout set with `with_timeout` |
| SwarmHandler.NewThenIntoInner | volans-swarm/src/handler.rs:115-138 | a new protocol gives back its upgrade and user data with a five-second timeout, and after `with_timeout` with the timeout set |
| SwarmHandler.MapUpgradeErr | volans-swarm/src/handler.rs:172-182 | only an Apply error is mapped; every other variant, with its I/O error, is kept |
| SwarmHandler.TransposeLeft | volans-swarm/src/handler.rs:186-195 | a Left Apply error is unwrapped; the other variants are kept; a Right Apply error panics, so it is excluded |
| SwarmHandler.TransposeRight | volans-swarm/src/handler.rs:197-206 | a Right Apply error is unwrapped; the other variants are kept; a Left Apply error panics, so it is excluded |
| SwarmHandler.TransposeUndoesTagging | volans-swarm/src/handler.rs:172-206 | tagging an error Left and transposing it left gives it back, and the same for Right |
| SwarmHandler.MapEvent | volans-swarm/src/handler.rs:217-225 | a Notify's event is mapped and CloseConnection is kept |
| SwarmHandler.MapEventCompose | volans-swarm/src/handler.rs:217-225 | mapping twice is mapping once by the composition |
| SwarmHandler.DefaultPollClose | volans-swarm/src/handler.rs:33-35 | a handler that keeps the default `poll_close` has no further event |
| SwarmHandlerSelect.ActionGoesToItsSide | volans-swarm/src/handler/select.rs:36-41 | one more action extends exactly the action list of its own side, unchanged |
| SwarmHandlerSelect.ActionsPartition | volans-swarm/src/handler/select.rs:36-41 | every action reaches exactly one of the two handlers |
| SwarmHandlerSelect.DefaultKeepAliveIsNeutral | volans-swarm/src/handler.rs:29-31 | a handler with the default keep-alive does not change what the other asks for |
| SwarmHandlerSelect.InboundNegotiated | volans-swarm/src/handler/select.rs:93-106 | the side that negotiated gets its own half of the paired user data and its own output |
| SwarmHandlerSelect.InboundUpgradeError | volans-swarm/src/handler/select.rs:108-121 | an inbound error goes to its own side with that side's half of the user data |
| SwarmHandlerSelect.OutboundNegotiated | volans-swarm/src/handler/select.rs:133-152 | the output goes to the side that negotiated with its own user data; user data of the other side panics, so it is excluded |
| SwarmHandlerSelect.OutboundUpgradeError | volans-swarm/src/handler/select.rs:154-171 | an outbound error goes to the side whose user data it carries, with the error untagged; an Apply error of the other side panics, so it is excluded |
| SwarmHandlerSelect.PollEvent | volans-swarm/src/handler/select.rs:59-70 | the first handler's event, tagged Left, if it has one; otherwise the second's, tagged Right; Pending only when both are |
| SwarmHandlerSelect.PollFirstPriority | volans-swarm/src/handler/select.rs:59-70 | a Right event comes through only while the first handler is Pending, and a close request passes through from either side |
| SwarmHandlerSelect.PollClose | volans-swarm/src/handler/select.rs:47-57 | the first handler is drained before the second is asked, and Ready(None) comes exactly when both are drained |
| SwarmHandlerSelect.DefaultPollCloseFinishes | volans-swarm/src/handler/select.rs:47-57 | two handlers with the default `poll_close` finish at once |
| SwarmHandlerSelect.PollOutboundRequest | volans-swarm/src/handler/select.rs:173-200 | the first handler's request, upgrade and user data tagged Left, if it has one; otherwise the second's, tagged Right; the timeout is kept |
| SwarmHandlerSelect.ListenProtocol | volans-swarm/src/handler/select.rs:83-91 | both upgrades offered together, the user data paired, and the longer of the two timeouts |
| SwarmHandlerSelect.ListenDataReturns | volans-swarm/src/handler/select.rs:83-121 | the user data paired by `listen_protocol` returns to the side whose inbound upgrade finished or failed |
| SwarmHandlerSelect.OutboundErrorReturns | volans-swarm/src/handler/select.rs:154-200 | an error of an outbound upgrade goes back to the handler that asked for it, with its own user data and error |
| SwarmHandlerSelect.OutboundOutputReturns | volans-swarm/src/handler/select.rs:133-200 | an outbound upgrade the first handler asked for, once negotiated, reaches the first handler with its own user data |
| SwarmInbound.Deliver | volans-swarm/src/connection/inbound.rs:116-138 | a success reaches `on_fully_negotiated` and an Apply error `on_upgrade_error`; a timeout, a failed negotiation and an I/O error make no call |
| SwarmInbound.Step | volans-swarm/src/connection/inbound.rs:97-182 | one pass never takes the number in flight past the cap, and `closing` is set exactly when it was set or the handler asks to close |
| SwarmInbound.InboundConnection.constructor | volans-swarm/src/connection/inbound.rs:47-63 | a new connection is not closing, has nothing in flight, no shutdown, and keeps its cap and idle timeout |
| SwarmInbound.InboundConnection.Poll | volans-swarm/src/connection/inbound.rs:85-183 | the loop ends in the state, the handler calls and the result that `Run` gives for the environment's answers at each pass |
| SwarmInbound.ClosingIsFinal | volans-swarm/src/connection/inbound.rs:98-101 | once closing, a poll returns Closing at once and changes nothing |
| SwarmInbound.CloseConnectionCloses | volans-swarm/src/connection/inbound.rs:98-113 | a CloseConnection sets `closing` and the next pass returns Closing without looking at anything else |
| SwarmInbound.HandlerFirst | volans-swarm/src/connection/inbound.rs:103-116 | a handler event is returned even when an upgrade completed at the same pass, which stays in flight |
| SwarmInbound.FinishedDelivered | volans-swarm/src/connection/inbound.rs:116-138 | a completed upgrade leaves the set in flight, and exactly a success or an Apply error makes one call, with the user data it started with |
| SwarmInbound.BusyNeverTimesOut | volans-swarm/src/connection/inbound.rs:140-158 | while an upgrade is in flight or a stream is active the shutdown is cleared and the connection does not time out |
| SwarmInbound.IdleZeroTimeoutCloses | volans-swarm/src/connection/inbound.rs:140-148 | an idle connection not kept alive, with a zero idle timeout, returns KeepAliveTimeout at once |
| SwarmInbound.NoAcceptAtCap | volans-swarm/src/connection/inbound.rs:166-178 | at the cap no pass adds an upgrade |
| SwarmInbound.RunKeepsCap | volans-swarm/src/connection/inbound.rs:97-182 | over a whole run the cap still holds, and the calls made are appended after the earlier ones |
| SwarmOutbound.FirstDone | volans-swarm/src/connection/outbound.rs:106-115 | the first request already extracted, if any; with none every request still waits |
| SwarmOutbound.TimedOutRequest | volans-swarm/src/connection/outbound.rs:110-113 | a request whose timer fired is settled and gives back its user data as an error |
| SwarmOutbound.Step | volans-swarm/src/connection/outbound.rs:100-198 | `closing` is set exactly when it was set or the handler asks to close at a pass that nothing earlier in the loop ended |
| SwarmOutbound.IdlePhase | volans-swarm/src/connection/outbound.rs:152-195 | the idle check and the muxer leave `closing` and make no call; in flight changes only by the upgrade of the request the set yields first, when a substream is ready, and that request is extracted |
| SwarmOutbound.RequestTimedOut | volans-swarm/src/connection/outbound.rs:106-115 | the request reported timed out is one still waiting |
| SwarmOutbound.OutboundConnection.constructor | volans-swarm/src/connection/outbound.rs:51-62 | a new connection is not closing, has no request and nothing in flight, no shutdown, and keeps its idle timeout |
| SwarmOutbound.OutboundConnection.IsClosing | volans-swarm/src/connection/outbound.rs:64-66 | whether the connection is closing |
| SwarmOutbound.OutboundConnection.Poll | volans-swarm/src/connection/outbound.rs:88-199 | the loop ends in the state, the handler calls and the result that `Run` gives for the environment's answers at each pass |
| SwarmOutbound.UserDataHandedOnce | volans-swarm/src/connection/outbound.rs:106-195 | at each pass the user data held plus that handed to the handler is what was held before plus that of a request just queued: none is lost or duplicated |
| SwarmOutbound.RequestQueued | volans-swarm/src/connection/outbound.rs:117-125 | a request the handler asks for is queued with its own upgrade, user data and timeout, not yet extracted |
| SwarmOutbound.TimeoutReported | volans-swarm/src/connection/outbound.rs:106-115 | a request whose timer fired leaves the queue and its user data reaches the handler with Timeout |
| SwarmOutbound.EveryResultDelivered | volans-swarm/src/connection/outbound.rs:140-150 | every completed upgrade reaches the handler, a success as such and every error, timeouts and failed negotiations included |
| SwarmOutbound.RequestKeepsAlive | volans-swarm/src/connection/outbound.rs:152-173 | a waiting request keeps the connection busy: the shutdown is cleared and it does not time out |
| SwarmOutbound.ClosingIsFinal | volans-swarm/src/connection/outbound.rs:101-104 | once closing, a poll returns Closing at once and changes nothing |
| SwarmOutbound.NextRequest | volans-swarm/src/connection/outbound.rs:180 | the request the futures set yields first, an input of the pass, is one of the requests |
| SwarmOutbound.OutboundBoundToWaitingRequest | volans-swarm/src/connection/outbound.rs:180-195 | a new outbound substream is taken only while a request waits, and it is bound to a waiting request, the one the set yields first, which is extracted; every other request keeps waiting |
| SwarmPool.NewPoolConfig | volans-swarm/src/connection/pool.rs:606-614 | the defaults: 32 task commands, 10 events per connection, a 60-second idle timeout, 128 negotiating inbound streams |
| SwarmPool.ConfigSetters | volans-swarm/src/connection/pool.rs:606-634 | the four setters each set only their own field: applied to the defaults in either order they give the configuration with exactly the four values, and one setter alone keeps the other defaults |
| SwarmPool.PendingOutcome | volans-swarm/src/connection/pool.rs:415-483 | how a finished pending connection settles, as intended: a connection to a peer other than the one dialled is WrongPeerId, then one to the local peer is LocalPeerId, otherwise it is established with the peer obtained; a failure is passed on with the expected peer |
| SwarmPool.PendingOutcomeAsWritten | volans-swarm/src/connection/pool.rs:415-483 | as written: the expected peer is compared with itself, so only LocalPeerId and failures are errors |
| SwarmPool.WrongPeerAccepted | volans-swarm/src/connection/pool.rs:423-442 | as written, a dial to one peer that reaches another is established, where the intended outcome is WrongPeerId |
| SwarmPool.AsWrittenIgnoresExpected | volans-swarm/src/connection/pool.rs:423-442 | as written, no established connection yields WrongPeerId, and the two versions agree whenever the peer obtained is the one expected |
| SwarmPool.Pool.constructor | volans-swarm/src/connection/pool.rs:83-103 | a new pool has no pending, established or aborted connection and has spawned nothing |
| SwarmPool.Pool.IsPeerConnected | volans-swarm/src/connection/pool.rs:134-136 | a peer is connected exactly when some established connection belongs to it |
| SwarmPool.Pool.NumPeerEstablished | volans-swarm/src/connection/pool.rs:161-165 | the number of the peer's established connections, 0 exactly when it is not connected |
| SwarmPool.Pool.EstablishedConnectionsOf | volans-swarm/src/connection/pool.rs:151-159 | exactly the established connections that belong to the peer |
| SwarmPool.Pool.IsPeerDialing | volans-swarm/src/connection/pool.rs:138-149 | the loop finds a dial exactly when some id listed under the peer is still pending as a dial |
| SwarmPool.Pool.ListedIsOwned | volans-swarm/src/connection/pool.rs:250-384 | an id listed under a peer is an established connection of that peer |
| SwarmPool.Pool.PendingDialIsDialing | volans-swarm/src/connection/pool.rs:138-212 | a dial still pending for a peer makes the peer dialing |
| SwarmPool.Pool.AddOutgoing | volans-swarm/src/connection/pool.rs:175-212 | the dial becomes pending with its peer and dialer endpoint, is listed under its peer if one is given, and its task is spawned; nothing else changes |
| SwarmPool.Pool.AddIncoming | volans-swarm/src/connection/pool.rs:214-248 | the connection becomes pending with no peer and a listener endpoint, is listed under none, and its task is spawned; nothing else changes |
| SwarmPool.Pool.Establish | volans-swarm/src/connection/pool.rs:258-334 | the connection is established with no command sent, listed under its peer, and the waker is woken |
| SwarmPool.Pool.SpawnInboundConnection | volans-swarm/src/connection/pool.rs:250-300 | as `Establish`, and an inbound task with the configured cap and idle timeout is spawned |
| SwarmPool.Pool.SpawnOutboundConnection | volans-swarm/src/connection/pool.rs:302-348 | as `Establish`, and an outbound task with the configured idle timeout is spawned |
| SwarmPool.Pool.Disconnect | volans-swarm/src/connection/pool.rs:105-125 | the peer's pending connections are removed and aborted; each of its established connections is sent a Close command and stays in the tables |
| SwarmPool.Pool.AbortPending | volans-swarm/src/connection/pool.rs:107-116 | the peer's listing is removed and each of its ids still pending is removed and aborted |
| SwarmPool.Pool.StartClosePeer | volans-swarm/src/connection/pool.rs:118-124 | each established connection of the peer is sent a Close command; nothing else changes |
| SwarmPool.Pool.Poll | volans-swarm/src/connection/pool.rs:350-485 | an event of an established connection is passed on; a Closed one removes the connection and reports those of the peer that remain; otherwise a finished pending connection is removed and settled as written, the expected peer not checked; the tables keep their invariant |
| SwarmPool.Pool.HandleClosed | volans-swarm/src/connection/pool.rs:360-384 | the connection leaves the tables, the peer's listing loses it and goes when empty, and the event reports the endpoint and how many of the peer's connections remain |
| SwarmPool.Pool.Enqueue | volans-swarm/src/connection/pool.rs:514-525 | the command is appended to that connection's commands; nothing else changes |
| SwarmPool.AbortAll | volans-swarm/src/connection/pool.rs:107-116 | the ids are removed from the pending table, and those that were pending are aborted |
| SwarmPool.StartCloseAll | volans-swarm/src/connection/pool.rs:118-124 | the loop sends Close to exactly the listed connections still established |
| SwarmPool.CloseAll | volans-swarm/src/connection/pool.rs:118-124 | the listed connections are sent Close and the others are left alone, with the same keys |
| SwarmNotify.NotifyOne | volans-swarm/src/lib.rs:48-61 | a busy channel gives the action back, a closed one drops it, and an open one sends it |
| SwarmNotify.FirstOpen | volans-swarm/src/lib.rs:75-89 | the position of the first id that is established and ready; none before it is |
| SwarmNotify.BusyOfMembers | volans-swarm/src/lib.rs:76-80 | the ids kept for a later attempt are exactly the busy established connections among the ids; with BusyOfAppend, in order |
| SwarmNotify.BusyOfAppend | volans-swarm/src/lib.rs:76-80 | the busy ids of two runs of ids are those of the first followed by those of the second, so the order is kept |
| SwarmNotify.NotifyAny | volans-swarm/src/lib.rs:64-97 | the action goes to the first ready connection and the scan stops; otherwise it is handed back with the busy ids when there are any, and dropped when there are none |
| SwarmNotify.DeliverPending | volans-swarm/src/client.rs:318-349 | a pending action is offered as `notify_one` or `notify_any` does, kept when it could not be delivered yet, and dropped when its connection is gone; only an established connection receives it |
| SwarmNotify.HandleBehaviorEvent | volans-swarm/src/client.rs:136-191 | a behaviour event is handed back to be queued; an action becomes the pending action, for the connection named or for exactly the peer's established connections; a close request closes the connection named if it is established, or disconnects the peer; a second pending action panics, so it is excluded |
| SwarmListener.ListenerIdCounter.constructor | volans-swarm/src/listener.rs:14 | the counter starts at 1 |
| SwarmListener.ListenerIdCounter.Next | volans-swarm/src/listener.rs:20-25 | the id handed out is the counter's old value, and the counter moves to its wrapping successor |
| SwarmListener.NewListenOpts | volans-swarm/src/listener.rs:127-132 | the options hold the address and a fresh id |
| SwarmListener.SequentialListenersDistinct | volans-swarm/src/listener.rs:14-25 | two sets of options made one after the other get increasing ids while the counter does not wrap |
| SwarmListener.Pass | volans-swarm/src/listener.rs:75-116 | a pass goes round again only when an active listener's close sender is dropped, and it then moves to Closing |
| SwarmListener.TaggedListener.constructor | volans-swarm/src/listener.rs:52-61 | a listener starts active with its id |
| SwarmListener.TaggedListener.PollNext | volans-swarm/src/listener.rs:72-117 | the state and the event are those of `PollNextOf`, each event tagged with this listener's id |
| SwarmListener.ActiveForwardsEvents | volans-swarm/src/listener.rs:77-100 | while the close sender is held, an active listener passes on its listener's events and stays active |
| SwarmListener.CancelStartsClosing | volans-swarm/src/listener.rs:83-87 | a dropped close sender starts closing within the same poll |
| SwarmListener.DoneIsFinal | volans-swarm/src/listener.rs:113 | once done, every poll is the end of the stream |
| SwarmListener.OwnClosedIsTheMoveToDone | volans-swarm/src/listener.rs:102-111 | a poll yields its own Closed event exactly when it moves into Done |
| SwarmListener.ClosedAtMostOnce | volans-swarm/src/listener.rs:72-117 | over any run of polls, the listener reports its closing at most once, and never once done |
| SwarmListener.AddressesAfter | volans-swarm/src/behavior/listen_addresses.rs:21-29 | a new address is inserted, an expired one removed, every other event ignored, and the flag says exactly whether the set changed |
| SwarmListener.NewAddressIdempotent | volans-swarm/src/behavior/listen_addresses.rs:23-25 | announcing an address twice changes the set only the first time |
| SwarmListener.ExpireUndoesNew | volans-swarm/src/behavior/listen_addresses.rs:21-29 | announcing a fresh address and then expiring it restores the set |
| SwarmListener.ListenAddresses.constructor | volans-swarm/src/behavior/listen_addresses.rs:13-15 | a new set of listen addresses is empty |
| SwarmListener.ListenAddresses.OnListenerEvent | volans-swarm/src/behavior/listen_addresses.rs:21-29 | the set and the flag become those of `AddressesAfter` |
| SwarmListener.ListenAddresses.Iter | volans-swarm/src/behavior/listen_addresses.rs:17-19 | every current address, each once |
| SwarmClient.UnconditionalDials | volans-swarm/src/client.rs:101-103 | a dial to no particular peer, and any dial under Always, goes ahead |
| SwarmClient.CombinedCondition | volans-swarm/src/client.rs:101-111 | DisconnectedAndNotDialing refuses exactly when Disconnected or NotDialing would, and a peer neither connected nor dialing is dialled under every condition |
| SwarmClient.ConditionRefuses | volans-swarm/src/client.rs:104-110 | a connected peer is refused under Disconnected and a dialing one under NotDialing, and both under the combined condition |
| SwarmClient.Swarm.constructor | volans-swarm/src/client.rs:46-59 | a new swarm has an empty pool, no pending action, no queued event and has told the behaviour nothing |
| SwarmClient.Swarm.CloseConnection | volans-swarm/src/client.rs:62-68 | true exactly when the connection is established, and then it is sent a Close command |
| SwarmClient.Swarm.Dial | volans-swarm/src/client.rs:94-134 | a refused condition gives PeerCondition and a transport error gives Transport, each told to the behaviour, returned, and leaving the pool as it was; otherwise the dial is added to the pool once |
| SwarmClient.Swarm.PollDial | volans-swarm/src/client.rs:360-375 | a Dialing event is queued exactly when the dial the behaviour asks for goes ahead; otherwise the behaviour is told of exactly one failure |
| SwarmClient.Swarm.HandlePoolEvent | volans-swarm/src/client.rs:193-305 | an established dial the behaviour refuses is a Denied dial error, told and reported and not spawned; one it admits is told, reported with the peer's count of connections, and spawned; connection events and closures reach the behaviour |
| SwarmClient.Swarm.PollBehavior | volans-swarm/src/client.rs:136-191 | a behaviour event is queued for the user; an action becomes the pending action, for its one connection or for all the peer's connections; a close request sends Close to the one connection or to every connection of the peer and drops its pending dials; otherwise the pool is unchanged; the behaviour is told nothing |
| SwarmClient.Swarm.PollPool | volans-swarm/src/client.rs:377-385 | the loop goes round again exactly when the pool had an event that fits its tables, returns Pending exactly when the pool had none, and otherwise changes nothing |
| SwarmClient.Swarm.Pass | volans-swarm/src/client.rs:314-386 | a queued event is returned first and changes nothing else; with nothing queued a polled behaviour event goes round again having queued only what it gives, a pending action that does not match the connections is refused, a return is Pending only when the pool had no event, and a turn with no behaviour event, no dial and no pool event returns Pending and changes nothing |
| SwarmClient.Swarm.PollNextEvent | volans-swarm/src/client.rs:309-387 | the passes run until one returns; a queued event is returned at once, leaving the rest of the queue; with nothing queued or pending, a quiet first turn returns Pending and changes nothing |
| SwarmServer.WithListened | volans-swarm/src/server.rs:401-416 | a reported address is appended to its listener's list, made if missing, unless it is already there; the other lists are kept |
| SwarmServer.ListenedKeepsDistinct | volans-swarm/src/server.rs:401-416 | the lists stay free of duplicates, hold the address reported, and a second report changes nothing |
| SwarmServer.ExpiryCallsEach | volans-swarm/src/server.rs:417-436 | one ExpiredListenAddr call per address of the closed listener, in the order of its list |
| SwarmServer.Swarm.constructor | volans-swarm/src/server.rs:53-70 | a new swarm has an empty pool, no listeners, no listened address, no pending action and no queued event |
| SwarmServer.Swarm.CloseConnection | volans-swarm/src/server.rs:72-79 | true exactly when the connection is established, and then it is sent a Close command |
| SwarmServer.Swarm.ListenOn | volans-swarm/src/server.rs:104-129 | a fresh listener id is taken; when the transport listens, the close sender is kept and the behaviour told of a new listener; otherwise the behaviour is told of the error, which is returned |
| SwarmServer.Swarm.RemoveListener | volans-swarm/src/server.rs:136-145 | true exactly when the listener's close sender was held, and it is dropped |
| SwarmServer.Swarm.HandlePoolEvent | volans-swarm/src/server.rs:204-347 | an incoming connection the behaviour refuses is a Denied listen error, told and reported and not spawned; one it admits is told, reported with the peer's count of connections, and spawned |
| SwarmServer.Swarm.HandleIncoming | volans-swarm/src/server.rs:355-400 | the connection gets a fresh id; refused by the behaviour it is told and reported and not added; admitted it is added to the pool once and reported |
| SwarmServer.Swarm.HandleListenerClosed | volans-swarm/src/server.rs:417-446 | the listener's addresses leave the table, the behaviour is told each one expired, in order, and then that the listener closed |
| SwarmServer.Swarm.HandleListenerEvent | volans-swarm/src/server.rs:349-459 | a reported address enters the table once and is announced; a close is handled as `HandleListenerClosed`; an error is announced; an expired address is ignored; only an incoming connection gives an id |
| SwarmServer.Swarm.PollBehavior | volans-swarm/src/server.rs:147-202 | a behaviour event is queued for the user; an action becomes the pending action, for its one connection or for all the peer's connections; a close request sends Close to the one connection or to every connection of the peer and drops its pending dials; otherwise the pool is unchanged; the behaviour is told nothing |
| SwarmServer.Swarm.PollPool | volans-swarm/src/server.rs:513-519 | the loop goes round again exactly when the pool had an event that fits its tables, returns Pending exactly when the pool had none, and otherwise changes nothing |
| SwarmServer.Swarm.Pass | volans-swarm/src/server.rs:466-531 | a queued event is returned first and changes nothing else; with nothing queued a polled behaviour event goes round again having queued only what it gives, a pending action that does not match the connections is refused, a return is Pending only when the pool had no event, and a turn with no behaviour event, no pool event and no listener event returns Pending and changes nothing |
| SwarmServer.Swarm.PollListeners | volans-swarm/src/server.rs:522-528 | the loop returns Pending exactly when no listener had an event, refuses an incoming connection whose fresh id is taken, and otherwise goes round again; anything but going round again changes nothing |
| SwarmServer.Swarm.PollNextEvent | volans-swarm/src/server.rs:461-532 | the passes run until one returns; a queued event is returned at once, leaving the rest of the queue; with nothing queued or pending, a quiet first turn returns Pending and changes nothing |
| MessageChannel.PollSink | volans-stream-select/src/protocol.rs:140-155 | the stream's next sink outcome is taken, Ready(Ok) when none is scripted, and a stuck write of the queued frames is the codec's WriteZero; what was received and sent is kept |
| MessageChannel.PollReadyMsg | volans-stream-select/src/protocol.rs:140-155 | the sink outcome with its I/O error wrapped as a protocol error |
| MessageChannel.StartSendMsg | volans-stream-select/src/protocol.rs:144-151 | an encoding longer than a frame can carry is refused with the frame-size error; any other message is sent |
| MessageChannel.PollNextMsg | volans-stream-select/src/protocol.rs:226-244 | the next scripted message is taken; the end of the stream is Ready(None) and stays; nothing scripted is Pending; the sink side is kept |
| Ping.DefaultConfig | protocols/volans-ping/src/lib.rs:18-24 | a one-second timeout, a ten-second interval and three failures allowed |
| Ping.SendPing | protocols/volans-ping/src/outbound.rs:268-277 | the exchange is polled before the timeout: its answer wins, an error becomes Other, and only a pending exchange with a fired timer gives Timeout |
| Ping.ExchangeWinsRace | protocols/volans-ping/src/outbound.rs:272-276 | a ping that is ready is its own outcome whether or not the timer fired, and never a Timeout |
| Ping.PollCloseOf | protocols/volans-ping/src/outbound.rs:69-74 | the queued error at the back is returned and removed; with none the handler is done |
| Ping.OutboundHandler.constructor | protocols/volans-ping/src/outbound.rs:34-45 | a new handler is active with no stream, no failure, no queued error, and its interval armed |
| Ping.OutboundHandler.Poll | protocols/volans-ping/src/outbound.rs:76-137 | Unsupported is reported once and then nothing; a queued error counts as a failure and is reported; enough failures close the connection; an idle stream pings when the interval fires; a success resets the failures and reports the round trip; a failure is queued |
| Ping.OutboundHandler.PollClose | protocols/volans-ping/src/outbound.rs:69-74 | the queued errors drain as `PollCloseOf`, and nothing else changes |
| Ping.OutboundHandler.OnFullyNegotiated | protocols/volans-ping/src/outbound.rs:144-150 | the new stream starts a ping; nothing else changes |
| Ping.OutboundHandler.OnUpgradeError | protocols/volans-ping/src/outbound.rs:152-174 | the stream is dropped and the interval fires at once; an unsupported protocol makes the handler inactive and unreported; a timeout is queued as a TimedOut I/O error; an I/O error is queued as is |
| Ping.OutboundHandler.PollOutboundRequest | protocols/volans-ping/src/outbound.rs:176-194 | a stream for the ping protocol is asked for exactly when there is none and the interval fires |
| Ping.ReportedOnce | protocols/volans-ping/src/outbound.rs:78-168 | after a failed negotiation Unsupported is reported at the next poll and never again |
| Ping.FailedPingCloses | protocols/volans-ping/src/outbound.rs:88-131 | the failed ping that reaches the configured number of failures is reported and the next poll closes the connection |
| Ping.Elapsed | protocols/volans-ping/src/inbound.rs:80 | the time since the last ping, zero when the clock reads earlier |
| Ping.InboundHandler.constructor | protocols/volans-ping/src/inbound.rs:32-41 | the timer allows `failures` intervals, the last ping is now, and the handler has not failed, is not receiving and has no queued error |
| Ping.InboundHandler.Poll | protocols/volans-ping/src/inbound.rs:60-109 | a queued error comes first; a failed handler closes the connection; a completed receive restarts it and the timer and reports the time since the last ping; a failed receive or a fired timer fails the handler and queues the reason |
| Ping.InboundHandler.PollClose | protocols/volans-ping/src/inbound.rs:53-58 | the queued errors drain as `PollCloseOf`, and nothing else changes |
| Ping.InboundHandler.ListenProtocol | protocols/volans-ping/src/inbound.rs:117-119 | the ping protocol, with the default substream timeout |
| Ping.InboundHandler.OnFullyNegotiated | protocols/volans-ping/src/inbound.rs:121-128 | a receive starts and the last ping is stamped now |
| Ping.InboundHandler.OnUpgradeError | protocols/volans-ping/src/inbound.rs:130-138 | the receive is dropped and the timer fires at once |
| Ping.SilenceCloses | protocols/volans-ping/src/inbound.rs:62-105 | a timer that fires before any ping reports Timeout, and the next poll closes the connection |
| Ping.Behavior.constructor | protocols/volans-ping/src/outbound.rs:203-211 | a new behaviour has no event and no waker kept |
| Ping.Behavior.OnConnectionHandlerEvent | protocols/volans-ping/src/outbound.rs:223-237 | the event goes to the front of the queue and the kept waker is woken |
| Ping.Behavior.Poll | protocols/volans-ping/src/outbound.rs:239-248 | the event at the back is returned and removed; with none it is Pending and keeps the waker |
| Ping.EventsInOrder | protocols/volans-ping/src/outbound.rs:223-248 | handler events reach the user in the order they arrived |
| Request.DefaultConfig | protocols/volans-request/src/lib.rs:111-118 | thirty seconds for a request |
| Request.NextRequestIdAsWritten | protocols/volans-request/src/lib.rs:19-28 | as written, with `NEXT_REQUEST_ID` a `const`, every id handed out is 0 |
| Request.RequestIdCounter.constructor | protocols/volans-request/src/lib.rs:19 | the corrected counter starts at 0 |
| Request.RequestIdCounter.Next | protocols/volans-request/src/lib.rs:24-28 | the id handed out is the counter's old value, and the counter moves to its wrapping successor |
| Request.SuccessorDiffers | protocols/volans-request/src/lib.rs:26 | the wrapping successor of a `usize` is never the value itself |
| Request.TwoIdsDiffer | protocols/volans-request/src/lib.rs:24-28 | two ids drawn in a row from the corrected counter differ |
| Request.AsWrittenIndexOutOfRange | protocols/volans-request/src/client.rs:86-87 | with distinct ids, `id & len` names entry 2 of two connections for id 2, past the end |
| Request.AsWrittenIdsPickFirst | protocols/volans-request/src/client.rs:86-87 | with the ids as written, always 0, the first connection is always picked |
| Request.ConnectionIndex | protocols/volans-request/src/client.rs:86-87 | corrected: the id modulo the number of connections, always one of them, and the first ids pick the connections in order |
| Request.OutboundIoError | protocols/volans-request/src/lib.rs:160-170 | an I/O failure is unwrapped; a dial failure is ConnectionRefused, a timeout TimedOut, a closed connection UnexpectedEof and an unsupported protocol Other |
| Request.InboundIoError | protocols/volans-request/src/lib.rs:148-158 | an I/O failure is unwrapped; a timeout is TimedOut, a closed connection UnexpectedEof, and an unsupported protocol or a discarded response Other |
| Request.SharedFailuresAgree | protocols/volans-request/src/lib.rs:148-170 | the two conversions agree on the failures both sides share |
| RequestClientHandler.FinishedEvent | protocols/volans-request/src/client/handler.rs:116-130 | an answered exchange is a Response, a broken one a StreamError with its error, an expired one a Timeout, each for its own request |
| RequestClientHandler.UpgradeErrorEventCases | protocols/volans-request/src/client/handler.rs:190-206 | a timeout queues Timeout, a failed negotiation Unsupported, an I/O error StreamError; the upgrade's own error queues nothing |
| RequestClientHandler.UpgradeErrorNamesRequest | protocols/volans-request/src/client/handler.rs:185-206 | every event an upgrade error queues names the request whose stream failed |
| RequestClientHandler.Handler.constructor | protocols/volans-request/src/client/handler.rs:32-40 | a new handler has no request waiting, asked for or in flight and no queued event |
| RequestClientHandler.Handler.HandleAction | protocols/volans-request/src/client/handler.rs:105-107 | a request joins the back of the waiting queue; nothing else changes |
| RequestClientHandler.Handler.PollClose | protocols/volans-request/src/client/handler.rs:109-114 | the oldest queued event is returned and removed; with none the handler is done |
| RequestClientHandler.Handler.Poll | protocols/volans-request/src/client/handler.rs:116-136 | an exchange that finished is reported first and leaves the map; otherwise the oldest queued event; otherwise Pending |
| RequestClientHandler.Handler.OnFullyNegotiated | protocols/volans-request/src/client/handler.rs:146-178 | the stream goes to the oldest request asked for; below ten in flight its exchange starts, otherwise a "max sub-streams reached" error is queued for it; a stream with no request waiting panics, so it is excluded |
| RequestClientHandler.Handler.OnUpgradeError | protocols/volans-request/src/client/handler.rs:180-207 | the failure goes to the oldest request asked for and queues what `UpgradeErrorEvent` says; with no request waiting it panics, so that is excluded |
| RequestClientHandler.Handler.PollOutboundRequest | protocols/volans-request/src/client/handler.rs:209-219 | the oldest waiting request moves to the back of those asked for, and a stream for its one protocol is requested; with none it is Pending |
| RequestClientHandler.RequestsPairInOrder | protocols/volans-request/src/client/handler.rs:180-219 | two requests whose upgrades time out are reported in the order they were made |
| RequestClient.Without | protocols/volans-request/src/client.rs:216-219 | the connection list without the closed connection, order kept; unchanged when it is absent |
| RequestClient.EventOf | protocols/volans-request/src/client.rs:129-177 | each handler answer becomes an event about the same peer, connection and request: a response, or a failure of the matching cause (Unsupported→UnsupportedProtocols, Timeout→Timeout, StreamError→Io) |
| RequestClient.DialFailuresEach | protocols/volans-request/src/client.rs:238-247 | one DialFailure per waiting request, in the order they were made |
| RequestClient.DispatchesEach | protocols/volans-request/src/client.rs:86-93 | one handler action per request, each to the connection its id picks, order kept |
| RequestClient.SendAll | protocols/volans-request/src/client.rs:77-98 | sending the waiting requests queues exactly `Dispatches` of them and makes exactly their ids pending |
| RequestClient.Behavior.constructor | protocols/volans-request/src/client.rs:38-48 | all tables and queues start empty |
| RequestClient.Behavior.TrySendRequest | protocols/volans-request/src/client.rs:77-98 | corrected index: an absent peer or an empty connection list hands the request back with nothing changed; otherwise one action to `conns[id % len]` is queued and the id becomes pending |
| RequestClient.Behavior.SendRequestAsWritten | protocols/volans-request/src/client.rs:50-70 | as written: the id is always 0, so the first connection is picked; to a connected peer the request is dispatched at once, otherwise it is appended to the peer's waiting list and the peer is queued for a dial |
| RequestClient.Behavior.SendRequest | protocols/volans-request/src/client.rs:50-70 | corrected counter: a fresh id is returned and the counter moves on; to a connected peer the request is dispatched at once, otherwise it is appended to the peer's waiting list and the peer is queued for a dial |
| RequestClient.Behavior.OnConnectionHandlerEvent | protocols/volans-request/src/client.rs:123-178 | the answered id leaves the pending set and exactly one matching event is queued at the back |
| RequestClient.Behavior.Poll | protocols/volans-request/src/client.rs:180-188 | FIFO: the oldest queued event, or Pending on an empty queue; nothing else changes |
| RequestClient.Behavior.HandleEstablishedConnection | protocols/volans-request/src/client.rs:195-203 | a fresh, empty handler with the configured request timeout; never denied |
| RequestClient.Behavior.OnConnectionEstablishedAsWritten | protocols/volans-request/src/client.rs:205-207 | as written: the connection is appended to the peer's list and the waiting requests stay where they are |
| RequestClient.Behavior.OnConnectionEstablished | protocols/volans-request/src/client.rs:205-207 | corrected: the connection is appended, then the peer's waiting requests are dispatched in order and leave the waiting table |
| RequestClient.Behavior.OnConnectionClosed | protocols/volans-request/src/client.rs:209-228 | the connection leaves the peer's list, and a peer left with none leaves the table |
| RequestClient.Behavior.OnDialFailure | protocols/volans-request/src/client.rs:230-250 | every request waiting for the peer fails with DialFailure, in order, and the peer's queue is dropped; an unknown or absent peer changes nothing |
| RequestClient.Behavior.PollDial | protocols/volans-request/src/client.rs:252-259 | Pending exactly when no dial waits; otherwise one waiting peer is dialled by identity with no address and stops waiting |
| RequestClient.AsWrittenSecondAnswerUnknown | protocols/volans-request/src/client.rs:50-137 | as written, two requests to a connected peer both get id 0 on the first connection, and answering the first leaves the second's id no longer pending |
| RequestClient.SecondRequestStillPending | protocols/volans-request/src/client.rs:50-137 | corrected, two requests get distinct ids and the second is still pending once the first is answered |
| RequestClient.RequestIsAnswered | protocols/volans-request/src/client.rs:62-143 | a request to a connected peer is dispatched, and the handler's response to its id settles it and reaches the user as that request's response |
| RequestClient.AsWrittenWaitingRequestStuck | protocols/volans-request/src/client.rs:62-207 | as written, a request made before the peer connects is still waiting and nothing was queued for it after the connection is up |
| RequestClient.WaitingRequestIsSent | protocols/volans-request/src/client.rs:62-207 | corrected, that request goes out on the new connection and awaits its answer |
| RequestServer.EventOf | protocols/volans-request/src/server.rs:69-123 | each handler report becomes an event about the same peer, connection and request: Request keeps its responder, Response→ResponseSent, Discard/Timeout/Error→Failure of that cause |
| RequestServer.Behavior.constructor | protocols/volans-request/src/server.rs:35-48 | empty queue and pending set, with the given protocols and config |
| RequestServer.Behavior.OnConnectionHandlerEvent | protocols/volans-request/src/server.rs:62-124 | a Request makes its id pending, any other report settles it; exactly one event is queued |
| RequestServer.Behavior.Poll | protocols/volans-request/src/server.rs:126-135 | FIFO: the oldest queued event, or Pending |
| RequestServer.Behavior.HandleEstablishedConnection | protocols/volans-request/src/server.rs:164-177 | every connection's handler gets the behaviour's protocols and request timeout; none is refused |
| RequestServer.RequestThenResponse | protocols/volans-request/src/server.rs:69-135 | a request received and then answered leaves nothing pending, and the user sees the request and then ResponseSent, in that order |
| StreamServer.Shared.constructor | protocols/volans-stream/src/server.rs:143-149 | no protocol is registered |
| StreamServer.Shared.Accept | protocols/volans-stream/src/server.rs:155-166 | a protocol already registered is refused with AlreadyRegistered and nothing changes; otherwise it is registered with an empty channel |
| StreamServer.Shared.ListenProtocol | protocols/volans-stream/src/server.rs:168-173 | registrations whose channel is closed are dropped, and exactly the remaining protocols are offered |
| StreamServer.Shared.OnInboundHandlerEvent | protocols/volans-stream/src/server.rs:175-207 | a stream for a registered protocol is delivered to its channel; a full channel drops the stream, a closed one also drops the registration; an unregistered protocol or an upgrade error changes nothing |
| StreamServer.AcceptOnce | protocols/volans-stream/src/server.rs:155-173 | accepting a protocol twice registers it once, refuses the second attempt, and the protocol is offered |
| StreamServer.ClosedProtocolIsDropped | protocols/volans-stream/src/server.rs:168-192 | a protocol whose channel is closed is no longer offered or registered |
| StreamClientHandler.UpgradeFailure | protocols/volans-stream/src/client/handler.rs:88-95 | Timeout becomes an Io error of kind TimedOut, NegotiationFailed becomes Unsupported(protocol), Io passes through; Apply cannot happen |
| StreamClientHandler.Handler.constructor | protocols/volans-stream/src/client/handler.rs:34-39 | the request slot starts empty |
| StreamClientHandler.Handler.OnFullyNegotiated | protocols/volans-stream/src/client/handler.rs:59-73 | the slot's requester receives the stream and the slot empties; an empty slot sends nothing |
| StreamClientHandler.Handler.OnUpgradeError | protocols/volans-stream/src/client/handler.rs:75-98 | the slot's requester receives the mapped failure and the slot empties; an empty slot sends nothing |
| StreamClientHandler.Handler.PollOutboundRequest | protocols/volans-stream/src/client/handler.rs:101-124 | a filled slot blocks; otherwise the next request on the channel fills the slot and a single-protocol stream is requested; with none, Pending |
| StreamClientHandler.OneAtATime | protocols/volans-stream/src/client/handler.rs:59-124 | a second request is not taken while the first's stream is being opened, and is taken once the first is answered |
| StreamClientShared.DialFailed | protocols/volans-stream/src/client/shared.rs:55-60 | every queued request is answered NotConnected with the dial error's text, in order |
| StreamClientShared.Shared.constructor | protocols/volans-stream/src/client/shared.rs:22-29 | all tables start empty |
| StreamClientShared.Shared.OnConnectionEstablished | protocols/volans-stream/src/client/shared.rs:35-37 | the connection joins the peer's set; nothing else changes |
| StreamClientShared.Shared.OnConnectionClosed | protocols/volans-stream/src/client/shared.rs:39-49 | the connection leaves the peer's set and an emptied peer leaves the table; an unknown peer changes nothing; the connection's sender stays |
| StreamClientShared.Shared.OnDialFailure | protocols/volans-stream/src/client/shared.rs:51-61 | the peer's waiting channel is dropped and each queued request is answered by `DialFailed`; with no waiting channel nothing happens |
| StreamClientShared.Shared.Sender | protocols/volans-stream/src/client/shared.rs:63-82 | the sender of one of the peer's connections if it has one; otherwise the peer's waiting channel, created when absent, plus a dial request when the dial channel accepts it |
| StreamClientShared.Shared.Receiver | protocols/volans-stream/src/client/shared.rs:84-98 | a new connection takes over the peer's waiting channel, or a fresh one, and that channel becomes the connection's sender |
| StreamClientShared.WaitingRequestsReachConnection | protocols/volans-stream/src/client/shared.rs:63-98 | requests made before a peer connects share one waiting channel, and the peer's first connection takes over exactly that channel |
| BridgeClientHandler.ProtocolInfo | protocols/volans-bridge/src/client/handler.rs:157-159 | the destination upgrade offers the bridge protocol alone |
| BridgeClientHandler.Handler.constructor | protocols/volans-bridge/src/client/handler.rs:24-30 | an empty queue and an empty slot |
| BridgeClientHandler.Handler.HandleAction | protocols/volans-bridge/src/client/handler.rs:36-46 | the request joins the back of the queue; the slot is untouched |
| BridgeClientHandler.Handler.OnFullyNegotiated | protocols/volans-bridge/src/client/handler.rs:61-78 | the slot's requester receives the stream and the slot empties; an empty slot is the source's panic, so it is required |
| BridgeClientHandler.Handler.OnUpgradeError | protocols/volans-bridge/src/client/handler.rs:80-103 | whatever the upgrade error, the slot's requester receives an Other error naming relay and destination, and the slot empties |
| BridgeClientHandler.Handler.PollOutboundRequest | protocols/volans-bridge/src/client/handler.rs:105-124 | with the slot empty, the oldest request fills it and a stream to its destination is requested; otherwise Pending and nothing changes |
| BridgeClientHandler.ServedInOrder | protocols/volans-bridge/src/client/handler.rs:36-124 | requests are served one at a time in arrival order: the second only after the first is answered |
| BridgeClientBehavior.Dials | protocols/volans-bridge/src/client/behavior.rs:107 | each waiting request asks for a dial of its relay at the request's relay address, in order |
| BridgeClientBehavior.Actions | protocols/volans-bridge/src/client/behavior.rs:153-166 | one handler action per request, all to the same connection, in order |
| BridgeClientBehavior.Flush | protocols/volans-bridge/src/client/behavior.rs:152-167 | draining a relay's waiting queue queues exactly `Actions` of it |
| BridgeClientBehavior.SkipDetours | protocols/volans-bridge/src/client/behavior.rs:62-110 | while the transport channel gives requests through unconnected relays, each joins its relay's waiting queue and asks for the relay's dial |
| BridgeClientBehavior.Route | protocols/volans-bridge/src/client/behavior.rs:62-118 | after those detours, a request through a connected relay becomes an action to one of the relay's connections; a listen request, a closed or a pending channel ends in Pending |
| BridgeClientBehavior.Behavior.constructor | protocols/volans-bridge/src/client/behavior.rs:33-42 | all tables and queues start empty |
| BridgeClientBehavior.Behavior.Poll | protocols/volans-bridge/src/client/behavior.rs:58-119 | a queued event comes first; otherwise the channel is routed as `Route` states, and direct connections never change |
| BridgeClientBehavior.Behavior.HandleEstablishedConnection | protocols/volans-bridge/src/client/behavior.rs:122-135 | the bridge handler exactly for a connection whose address is not a circuit |
| BridgeClientBehavior.Behavior.OnConnectionEstablished | protocols/volans-bridge/src/client/behavior.rs:137-168 | a direct connection joins its peer's set and the peer's waiting requests are sent to one of its connections, in order; a circuit connection changes nothing |
| BridgeClientBehavior.Behavior.OnConnectionClosed | protocols/volans-bridge/src/client/behavior.rs:170-185 | a direct connection leaves its peer's set, and an emptied peer leaves the table |
| BridgeClientBehavior.Behavior.OnDialFailure | protocols/volans-bridge/src/client/behavior.rs:187-212 | only the oldest waiting request of the peer is answered with "Dial failed"; the rest keep waiting |
| BridgeClientBehavior.Behavior.PollDial | protocols/volans-bridge/src/client/behavior.rs:214-224 | the oldest requested dial, with its relay address and the DisconnectedAndNotDialing condition; Pending when none |
| BridgeClientBehavior.RequestWaitsForRelay | protocols/volans-bridge/src/client/behavior.rs:62-224 | a request through an unconnected relay waits, the relay is dialled at the named address, and once a direct connection is up the request goes to it |
| BridgeClientBehavior.RequestQueued | protocols/volans-bridge/src/client/behavior.rs:62-224 | with no direct connection to the relay, a request through it is queued under the relay, the poll answers Pending and the next dial asked for is the relay at the named address |
| RegistryTypes.DefaultConfig | protocols/volans-registry/src/lib.rs:79-87 | the name "volans", no metadata, sixty seconds to live |
| RegistryDiscovery.FirstAddress | protocols/volans-registry/src/discovery.rs:77 | the first address a peer announced, or none exactly when it announced none |
| RegistryDiscovery.Behavior.constructor | protocols/volans-registry/src/discovery.rs:19-28 | nothing discovered yet |
| RegistryDiscovery.Behavior.Poll | protocols/volans-registry/src/discovery.rs:43-62 | a discovered node is remembered under its peer id (replacing an earlier entry), an expired one forgotten, and each is reported; a watch error is reported and changes nothing; Pending passes through |
| RegistryDiscovery.Behavior.HandlePendingConnection | protocols/volans-registry/src/discovery.rs:66-88 | never refuses: a given address is kept; a discovered peer gets its first announced address; anything else has no address |
| RegistryDiscovery.DialDiscoveredPeer | protocols/volans-registry/src/discovery.rs:43-88 | a discovered peer is dialled at its first address until it expires, after which no address is supplied |
| RegistryService.IsNetworkAddress | protocols/volans-registry/src/registry.rs:140-152 | true exactly when the address's first component is Ip4, Ip6, Dns, Dns4 or Dns6; false for the empty address |
| RegistryService.FromIpAddrIsNetworkAddress | protocols/volans-registry/src/registry.rs:140-152 | an address built from an IP address is a network address |
| RegistryService.PushKeepsNetworkAddress | protocols/volans-registry/src/registry.rs:140-152 | appending a component to a non-empty address does not change whether it is a network address |
| RegistryService.NetworkAddresses | protocols/volans-registry/src/registry.rs:108-113 | the filter keeps exactly the network addresses and never grows the list |
| RegistryService.Announced | protocols/volans-registry/src/registry.rs:108-118 | the announced list holds exactly the network listen addresses, and is empty exactly when there are none |
| RegistryService.Reported | protocols/volans-registry/src/registry.rs:79-90 | the registry's report passes through as Registered, Deregistered or RegistryError; Pending stays Pending |
| RegistryService.Behavior.constructor | protocols/volans-registry/src/registry.rs:26-35 | no addresses, nothing to register, no delay armed |
| RegistryService.Behavior.OnListenerEvent | protocols/volans-registry/src/registry.rs:106-130 | when the listen addresses change and some are network addresses, an announcement of exactly those, with the configured name, metadata and ttl, replaces the waiting one; otherwise the waiting one stays |
| RegistryService.Behavior.Poll | protocols/volans-registry/src/registry.rs:55-91 | with no delay, a waiting announcement is registered; on failure it is kept, a ten-second delay is armed and the error reported; an armed delay that has not fired gives Pending, one that has fired is disarmed; then the registry's report passes through |
| RegistryService.RetryAfterDelay | protocols/volans-registry/src/registry.rs:59-78 | a failed registration is retried with the same announcement, and only after its delay has fired |
| CoreExtensions.Extensions.constructor | volans-core/src/extensions.rs:33-37 | no map yet, so nothing stored |
| CoreExtensions.Extensions.Insert | volans-core/src/extensions.rs:39-44 | the value replaces any of its type, the replaced one is returned, and the map exists afterwards |
| CoreExtensions.Extensions.Get | volans-core/src/extensions.rs:46-58 | some value exactly when one of that type is stored, and then that value |
| CoreExtensions.Extensions.GetOrInsertWith | volans-core/src/extensions.rs:60-78 | the stored value when there is one, unchanged; otherwise the made value is stored and returned |
| CoreExtensions.Extensions.Remove | volans-core/src/extensions.rs:80-85 | the value of that type is taken out and returned; with no map nothing changes |
| CoreExtensions.Extensions.Clear | volans-core/src/extensions.rs:87-92 | nothing stored afterwards; whether a map exists is unchanged |
| CoreExtensions.Extensions.Len | volans-core/src/extensions.rs:99-102 | the number of types with a value; zero exactly when nothing is stored |
| CoreExtensions.Extensions.IsEmpty | volans-core/src/extensions.rs:94-97 | empty exactly when the length is zero |
| CoreExtensions.Extensions.Extend | volans-core/src/extensions.rs:104-113 | the other's values are added over this one's; an other with no map changes nothing |
| CoreExtensions.InsertThenGet | volans-core/src/extensions.rs:39-102 | a first insert returns none, get finds the value, a second insert returns it, and the length is one |
| CoreExtensions.GetOrInsertOnlyWhenAbsent | volans-core/src/extensions.rs:64-85 | get_or_insert_with inserts only when absent, and what is removed is gone |
| CoreExtensions.ExtendPrefersOther | volans-core/src/extensions.rs:104-113 | after extend, the other's value wins for shared types and this one's values survive for the rest |

## Left out

- Wakers and the `Context` of each poll are not modelled; a poll that is not ready returns `Pending` and nothing else.
- Sockets, the TCP listener and if-watch events, the WebSocket handshake and framing (tungstenite), and the plaintext key exchange are I/O; only their address logic and state are modelled.
- Task spawning, mpsc and oneshot channels, `Arc<Mutex>` sharing and the futures collections are concurrency; what each gives at a poll is an input, and a channel is named by a number.
- Clocks and timers are inputs: elapsed time, whether a delay has fired, and the current instant are parameters.
- The `url` crate, IP-address text, bs58, the `http` crate's URI parse of the WebSocket request path and the Display of those are foreign code; they are function parameters (`uriError` for the URI parse) or pre-parsed records.
- The varint crate is replaced by an own LEB128 model of the unsigned-varint rules; `usize` is taken to be 64 bits.
- The codecs of volans-codec and of the request protocol (serde, prost) are foreign code; requests and responses are type parameters.
- The mDNS registry backend is foreign code; what `register`, `poll_next` and `poll_watch` answer is an input.
- The proc-macro derive, the pure delegation wrappers (boxed, map, either, dummy and timeout transports and handlers) and the trivial upgrades have no behaviour of their own.
- The relay's data pumping, the framed status exchange and the relay and backend behaviours forward channels and are not part of this model.
- `ListenerEvent::Listened`, which server.rs matches, is not declared; it is read as the declared `NewAddress`, and `AddressExpired`, which has no arm there, is ignored.
- `notify_all` and `NotifyHandler::All`, used by client.rs and server.rs, are not declared in the swarm's lib.rs; they are not part of this model.
- SwarmClient.Swarm.Dial: the source passes the dial's optional address where an address is expected (volans-swarm/src/client.rs:98, 119, 132), which does not type-check; the model takes dials that carry an address.
- The bridge behaviour builds its handler request with a `dst_addresses` field the handler's request does not declare; the model uses the declared fields.
- `HashSet` and `HashMap` iteration order is unspecified; where the source takes "the first" element, the model proves the result is some element, not which.
- The muxer's `poll_outbound` and `poll_close` forwarding and yamux's self-wake are delegation and waker plumbing.
- A connection's `close` and `handle_action` delegation to its handler and muxer, and `ConnectionController`, are delegation.
- `get_established`, the `connected_peers` and `connected_connections` iterators and the `behavior` and `behavior_mut` accessors only read or lend state.
- The stream behaviour's poll (always Pending), the trivial handler polls and the handlers' `handle_action` on `Infallible` actions cannot produce anything.
- `MessageReader` and `into_reader` expose the framed stream's read half, which the model already covers.
- `debug_assert!` checks are not preconditions: release builds do not panic on them.
- RequestClientHandler.Handler: FuturesMap's replacement of an exchange pushed under an id already in flight is left out; with the corrected id counter ids do not repeat.
- StreamClientShared.Shared: whether the dial channel takes a peer is a parameter (`dialAccepted`), and what a waiting channel holds when its dial fails is an input (`queued`).
- Ping: the `u32` failure counter and `Duration` arithmetic are unbounded integers here, so their overflow is not modelled; the ping upgrade's `Apply` error is Infallible and the handler's `handle_action` is unreachable.
- BridgeClientHandler.Handler.OnUpgradeError: the text of the relay address and destination is a parameter (`rendered`), since it is a Display of foreign types.
- The bridge handler's `poll` (always Pending) and `poll_close` (always done) produce nothing.
- The bridge behaviour's `on_connection_handler_event` is unreachable and the registry behaviours' handler events are `Infallible`.
- RegistryService.Behavior: listen addresses are held as a set, as `ListenAddresses` holds them; `config_mut` only lends the configuration.
- RegistryDiscovery.Behavior: its `poll_dial` is always Pending and its `handle_established_connection` gives the do-nothing handler.
- CoreExtensions.Extensions: values of all types share one type parameter, `get_mut` and the `get_or_insert` family return the value rather than a mutable reference into the map, and the `Debug`, `Clone` and `IdHasher` impls are left out.
- StreamServer.Shared.ListenProtocol: the upgrade factory's `listen_protocol`, which turns the offered protocols into an upgrade, is foreign code; the model returns the offered set.
- StreamServer.StreamEvent: the source's `UpgradeError` carries no protocol; the model's field is unused.
- LengthDelimitedCodec.LengthDelimited.PollFlush: the inner stream's own flush is taken to succeed at once.
- LengthDelimitedCodec.LengthDelimited.PollClose: the inner stream's own close is taken to succeed at once.
- RequestClient.Behavior.SendRequest: runs the corrected id counter, one distinct id per request; as written every id is 0 (see Findings), which `SendRequestAsWritten` models and `RequestClient.AsWrittenSecondAnswerUnknown` exhibits.
- RequestClient.Behavior.TrySendRequest: picks the connection with the corrected `id % len`. As written it is `id & len`, a latent defect: with every id 0 it always picks the first connection (`Request.AsWrittenIdsPickFirst`), which `id % len` also does; it can go out of range only once the id counter is fixed (`Request.AsWrittenIndexOutOfRange`, see Findings).
- NegotiatedStream.PollNegotiatedSpec: where the source panics (an echo read after a flush whose WriteZero left the proposal in the codec's write buffer, so `into_inner` fails its `assert!`), the model returns that WriteZero error and spends the stream (see Findings).
- NegotiatedStream.Negotiated.PollNegotiated: follows `PollNegotiatedSpec`, so it returns the WriteZero error where the source panics in `into_inner`.
- NegotiatedStream.Negotiated.PollRead: follows `PollNegotiatedSpec` before the first read, so it returns the WriteZero error where the source panics in `into_inner`.
- NegotiatedStream.NegotiatedComplete.PollFuture: follows `PollNegotiatedSpec`, so it returns the WriteZero error where the source panics in `into_inner`.
- NegotiatedStream.ExpectingAnswered: covers only flushes that sent the proposal; the flush that leaves it queued is `ExpectingStuckAnswered`, on the corrected behaviour.
- SwarmClient.Swarm.Pass: after a pass that delivers the pending action, makes a dial or hands on a pool event, the new state is the one `DeliverPending`, `PollDial` and `HandlePoolEvent` state; the pass does not restate it.
- SwarmServer.Swarm.Pass: after a pass that delivers the pending action or hands on a pool or listener event, the new state is the one `DeliverPending`, `HandlePoolEvent` and `HandleListenerEvent` state; the pass does not restate it.
- SwarmClient.Swarm.PollNextEvent: the state after several passes is stated pass by pass by `Pass`, not summed up over the loop.
- SwarmServer.Swarm.PollNextEvent: the state after several passes is stated pass by pass by `Pass`, not summed up over the loop.

## Findings

| source | as written | input that shows it | evidently intended | confidence | as-written member | corrected member |
|---|---|---|---|---|---|---|
| volans-stream-select/src/length_delimited.rs:111-116 | the length is decoded as soon as two of the four header bytes are in | the frame `[0,0,0,1,0x41]` arriving as `[0,0]` then `[0,1,0x41]` is read as an empty frame, and the next read starts inside the frame | decode the length only after all four header bytes | not executed | LengthDelimitedCodec.SplitHeaderMisread | LengthDelimitedCodec.IntendedFrameRoundTrip |
| volans-swarm/src/connection/pool.rs:423-442 | the peer a dial expected is compared with itself, so a connection to another peer is accepted | a dial expecting peer `a` whose connection turns out to be to peer `b != a` is established | report WrongPeerId when the connected peer is not the expected one | not executed | SwarmPool.WrongPeerAccepted | SwarmPool.PendingOutcome |
| protocols/volans-request/src/lib.rs:19-28 | `NEXT_REQUEST_ID` is a `const`, so each `fetch_add` works on a fresh temporary and every id is 0 | two requests in flight both get id 0; once the first is answered the second's id is no longer pending | a `static` counter handing out distinct ids | not executed | RequestClient.AsWrittenSecondAnswerUnknown | RequestClient.SecondRequestStillPending |
| protocols/volans-request/src/client.rs:86-87 | the connection is picked with `id & len`, a latent defect: as written every id is 0, so every request goes to the first connection | none as written; once the previous row's counter is fixed, id 2 with two connections gives index 2, out of range, and the indexing panics | `id % len`, always a valid index | not executed | Request.AsWrittenIndexOutOfRange | Request.ConnectionIndex |
| volans-stream-select/src/negotiated.rs:62-97 | a WriteZero from the flush is tolerated even when it leaves the last proposal in the codec's write buffer, and the echo then calls `io.into_inner()`, whose `assert!(self.write_buffer.is_empty())` (length_delimited.rs:58) panics | expecting `p`, a stream that accepts none of the proposal's frame (WriteZero) while the peer's next message is the echo of `p` | do not complete, and report the WriteZero, while the proposal is still queued | not executed | NegotiatedStream.AsWrittenEchoAfterStuckFlush | NegotiatedStream.PollNegotiatedSpec |
| protocols/volans-request/src/client.rs:62-207 | requests made before the peer is connected are queued, but a successful connection never sends them | a request to an unconnected peer, followed by that peer's connection, stays queued and is never answered | send the waiting requests once the connection is up | not executed | RequestClient.AsWrittenWaitingRequestStuck | RequestClient.WaitingRequestIsSent |
