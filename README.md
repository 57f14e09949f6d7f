# Modbus RTU master transports of jamod-android, in Dafny

This project models the Modbus RTU frame layer of the jamod-android master
library and the control flow built on it. It covers three transports:

- RTU frames over a TCP socket, with the optional 9-byte "wifi" envelope;
- RTU frames over a classic-Bluetooth RFCOMM socket;
- RTU frames over a BLE characteristic, reassembled from notifications.

The project models:

- **the frame codec** (`RtuFrame`): bytes, the CRC-16 of section 6.2.2 of
  the MODBUS over Serial Line Specification V1.02, frame assembly (payload
  followed by the CRC, low byte first), and the CRC comparison every
  `readResponse` makes;
- **the response-length tables** (`LengthTables`): `calcLength` of the BLE
  transport and `getResponse(fn)` of the two stream transports, and how the
  two tables relate;
- **the BLE reassembly buffer** (`BleTransport`): the notifier callback
  `onRecieve`, which appends a chunk to a 256-byte buffer and raises
  "received" once the table says a whole frame is there, and the reader,
  which takes the frame out and checks it;
- **the stream read path** (`StreamFraming`, shared by `TcpTransport` and
  `BtTransport`), over a socket model (`Streams`) whose reads hand out as
  many bytes as the network chooses:
  - the two-byte header read;
  - the `while (remain > 0)` loop that reads a byte-count frame however it is split;
  - the fixed-length reads whose count is never checked;
  - the CRC verdict;
  - the draining of the input after an IOException;
- **the TCP wifi envelope** (`TcpTransport`): the head `createNewWifiHead`
  builds, the 100-byte send buffer, and the envelope skipped on receipt;
- **the three transaction executors** (`TcpTransaction`, `BtTransaction`,
  `BleTransaction`). Each `execute` is a class method whose result and
  recorded steps equal a pure function of the old state and the outcomes
  it meets (`TcpRun`, `BtRun`, `BleRun`). Lemmas about those functions state:
  - the lock discipline: taken first, released exactly once and last;
  - connecting when needed, and fetching the transport again;
  - the single transaction id, stamped before the write;
  - the write coming before the read, on the same transport;
  - how exceptions map to results;
  - closing when reconnecting, and the validity hook;
- **the TCP and Bluetooth master connections** (`TcpConnection`,
  `BtConnection`): `connect`, `close`, transport preparation (created once,
  rebound afterwards), and the accessors.

Where the code departs from what its comments or the surrounding design
suggest, the model does what the code does:

- For function codes 0x07 and 0x08 the stream table gives length 3. The CRC
  of the unit id alone is then compared with the function code and byte 2
  (`StreamFraming.ThreeByteCodes`).
- For 0x16 the stream table gives length 8 but reads no body. For 0x18 it
  reads only the two count bytes. The bytes not read stay zero in the fresh
  buffer.
- An unknown function code gives length 0, and `buffer[length - 2]` then
  throws `ArrayIndexOutOfBoundsException`. In the stream transports that
  exception escapes unwrapped (`StreamFraming.UnknownCodeEscapes`). In the
  BLE transport the catch-all turns it into the read failure.
- The comment on `mWifiHack` says mode 1 means the new wifi module, but the
  code tests for 100. The model uses 100.
- `RTUTCPMasterConnection` calls a one-argument `ModbusRTUTCPTransport`
  constructor that the transport file does not declare. It is modelled as
  the three-argument constructor with wifi mode 0 and tail IP 0.
- `ModbusIOException` is taken not to be an `IOException`. So "Premature end
  of stream", thrown inside `readResponse`'s try block, is neither drained
  nor rewrapped.
- In the `finally` of both locking executors, the lock is released even
  when `acquire` was interrupted. The model releases it on that path too.
- Reads whose count the code ignores (the header read, the fixed-length
  reads, the read of the byte count) may be short. A short read leaves
  zeros in the buffer, and the model keeps that behaviour.

## Model

| member | source | states |
|---|---|---|
| RtuFrame.CrcKnownAnswer | app/src/main/java/net/wimpi/modbus/io/ModbusRTUTCPTransport.java:132-136 | the request 01 03 00 00 00 01 is sent with the CRC bytes 84 0A, low byte first: the register is the CRC-16/MODBUS of the serial line specification and the bytes go out in its order |
| RtuFrame.AppendCrcAccepted | app/src/main/java/net/wimpi/modbus/io/ModbusRTUTCPTransport.java:132-139 | a frame the writer assembles is two bytes longer than the payload, starts with the payload and passes the reader's CRC check |
| RtuFrame.CrcMatchesIffAssembled | app/src/main/java/net/wimpi/modbus/io/ModbusRTUTCPTransport.java:239-247 | the reader's CRC check accepts a frame exactly when the frame is its own prefix with the CRC appended |
| RtuFrame.CorruptedCrcRejected | app/src/main/java/net/wimpi/modbus/io/ModbusRTUBLETransport.java:135-143 | changing either CRC byte of an assembled frame makes the check fail |
| LengthTables.BleFrameLength | app/src/main/java/net/wimpi/modbus/io/ModbusRTUBLETransport.java:238-267 | the BLE table is 0 or between 5 and 260, and exceeds the 256-byte buffer only for a byte-count code whose count exceeds 251 |
| LengthTables.StreamFrameLength | app/src/main/java/net/wimpi/modbus/io/ModbusRTUTCPTransport.java:288-365 | the stream table is 0 or at least 3; it is 3 exactly for 0x07 and 0x08; only 0x18 can announce more than 260 bytes |
| LengthTables.TablesAgree | app/src/main/java/net/wimpi/modbus/io/ModbusRTUBLETransport.java:238-267 | wherever the BLE table is non-zero the two tables agree; the BLE table is 0 and the stream table non-zero exactly for 0x07, 0x08, 0x16, 0x18 and 0x90; where the stream table is 0 so is the BLE one |
| LengthTables.ExceptionResponsesAreFiveBytes | app/src/main/java/net/wimpi/modbus/io/ModbusRTUBluetoothTransport.java:179-256 | of the function codes with bit 0x80 set, the tables know only 0x83 (both) and 0x90 (stream), each with 5 bytes |
| LengthTables.ByteCountLength | app/src/main/java/net/wimpi/modbus/io/ModbusRTUBLETransport.java:243-254 | for every byte-count code and every count, both tables give the count plus 5, whatever follows the count |
| LengthTables.FixedLength | app/src/main/java/net/wimpi/modbus/io/ModbusRTUBLETransport.java:255-261 | for each of the BLE table's fixed codes (0x05, 0x06, 0x0B, 0x0F, 0x10) both tables give 8, whatever the body |
| BleTransport.Cleared | app/src/main/java/net/wimpi/modbus/io/ModbusRTUBLETransport.java:62-65 | the state `writeMessage` leaves (zeroed buffer, cursor 0, flag down) satisfies the reassembly invariant |
| BleTransport.Receive | app/src/main/java/net/wimpi/modbus/io/ModbusRTUBLETransport.java:206-222 | a chunk that overruns the buffer changes nothing; otherwise it lands at the cursor, the cursor moves past it, nothing else in the buffer changes, the flag never goes down, and it goes up exactly when the table says the frame is complete; the invariant is kept |
| BleTransport.Feed | app/src/main/java/net/wimpi/modbus/io/ModbusRTUBLETransport.java:206-222 | callbacks delivered one after another keep the reassembly invariant |
| BleTransport.ReceiveTwice | app/src/main/java/net/wimpi/modbus/io/ModbusRTUBLETransport.java:206-222 | two chunks in a row leave the same buffer, cursor and flag as their concatenation in one callback |
| BleTransport.FeedIsSplitIndependent | app/src/main/java/net/wimpi/modbus/io/ModbusRTUBLETransport.java:206-222 | however the radio splits the bytes into notifications, reassembly ends in the state that one notification with all of them leaves |
| BleTransport.ReadOutcome | app/src/main/java/net/wimpi/modbus/io/ModbusRTUBLETransport.java:108-155 | reading succeeds exactly when the flag is up and the buffer starts with a well-formed frame of the table's length; every failure is the read failure |
| BleTransport.PrefixIsIncomplete | app/src/main/java/net/wimpi/modbus/io/ModbusRTUBLETransport.java:211-220 | after a write, no proper prefix of a well-formed frame raises the flag, so the reader is never woken with half a frame |
| BleTransport.DeliveredFrameIsRead | app/src/main/java/net/wimpi/modbus/io/ModbusRTUBLETransport.java:108-155 | after a write, a well-formed frame delivered in any chunks raises the flag, and reading it yields the decoding of exactly that frame |
| BleTransport.UnknownCodeCompletesEarly | app/src/main/java/net/wimpi/modbus/io/ModbusRTUBLETransport.java:211-218 | with a function code outside the table the flag goes up as soon as three bytes are in, and the read that follows fails |
| BleTransport.Transport.constructor | app/src/main/java/net/wimpi/modbus/io/ModbusRTUBLETransport.java:44-51 | a new transport has the cleared reassembly state, no write result and nothing sent |
| BleTransport.Transport.OnReceive | app/src/main/java/net/wimpi/modbus/io/ModbusRTUBLETransport.java:206-222 | the callback on the array does what `Receive` says, and reports an overrunning chunk |
| BleTransport.Transport.OnWrite | app/src/main/java/net/wimpi/modbus/io/ModbusRTUBLETransport.java:224-229 | the write result is stored as reported |
| BleTransport.Transport.WriteMessage | app/src/main/java/net/wimpi/modbus/io/ModbusRTUBLETransport.java:59-100 | the reassembly state is cleared, the frame with its CRC is handed to the radio, and the write succeeds exactly when a successful acknowledgement arrived in time; otherwise it is the write failure |
| BleTransport.Transport.GetResponse | app/src/main/java/net/wimpi/modbus/io/ModbusRTUBLETransport.java:157-204 | answers the BLE table's length and copies exactly the bytes from 2 up to that length (capped at the buffer) out of the reassembly buffer, leaving the rest of the reader's buffer as it was |
| BleTransport.Transport.ReadResponse | app/src/main/java/net/wimpi/modbus/io/ModbusRTUBLETransport.java:108-155 | the method's result is `ReadOutcome` of the shared state |
| BleTransport.Transport.Close | app/src/main/java/net/wimpi/modbus/io/ModbusRTUBLETransport.java:53-56 | closing changes nothing |
| BleTransport.Transport.ReadRequest | app/src/main/java/net/wimpi/modbus/io/ModbusRTUBLETransport.java:102-105 | always fails with "Operation not supported" |
| Streams.Socket.Drain | app/src/main/java/net/wimpi/modbus/io/ModbusRTUTCPTransport.java:275-286 | everything already received is discarded, unless the socket is closed, when the first read throws |
| StreamFraming.CheckFrame | app/src/main/java/net/wimpi/modbus/io/ModbusRTUTCPTransport.java:236-247 | the verdict on a filled buffer fails only with the bad index or the CRC error |
| StreamFraming.FillRemaining | app/src/main/java/net/wimpi/modbus/io/ModbusRTUTCPTransport.java:304-314 | the bytes taken from the stream land contiguously from offset 3; on success exactly count + 2 bytes were taken; the bad index happens only for an oversized count or after the peer hung up; with enough bytes waiting on an open socket the loop succeeds |
| StreamFraming.ReadCounted | app/src/main/java/net/wimpi/modbus/io/ModbusRTUTCPTransport.java:294-318 | the bytes taken land contiguously from offset 2; on success the length is the count byte plus 5 and exactly length - 2 bytes were taken; with a complete frame waiting on an open socket it succeeds |
| StreamFraming.ReadUnchecked | app/src/main/java/net/wimpi/modbus/io/ModbusRTUTCPTransport.java:319-331 | whatever one read takes lands from offset 2; only a read failure is reported |
| StreamFraming.GetResponse | app/src/main/java/net/wimpi/modbus/io/ModbusRTUTCPTransport.java:288-365 | answers the stream table's length for the function code and the bytes as read; codes without a body read nothing; a byte-count code on success took exactly the rest of the frame |
| StreamFraming.ReadHeader | app/src/main/java/net/wimpi/modbus/io/ModbusRTUTCPTransport.java:225-228 | one or two bytes land from offset 0; the truncated header is reported exactly when the peer hung up with nothing left |
| StreamFraming.ReadRaw | app/src/main/java/net/wimpi/modbus/io/ModbusRTUTCPTransport.java:225-236 | the length is the table's for the buffer as read; with a non-zero function code the bytes taken stand from offset 0; for a byte-count code exactly the frame was taken |
| StreamFraming.ReadFrame | app/src/main/java/net/wimpi/modbus/io/ModbusRTUTCPTransport.java:210-259 | an accepted frame is 3 to 256 bytes with a correct CRC, is what `CheckFrame` accepts of the buffer, and for a byte-count code is exactly the bytes taken from the stream; a CRC error is `CheckFrame`'s |
| StreamFraming.ReceiveFrame | app/src/main/java/net/wimpi/modbus/io/ModbusRTUTCPTransport.java:205-273 | an accepted frame has a correct CRC and, for a byte-count code, is exactly what was taken from the stream; a read failure drains the input; a truncated header is reported exactly when the peer hung up with nothing sent |
| StreamFraming.AssembledFrameAccepted | app/src/main/java/net/wimpi/modbus/io/ModbusRTUTCPTransport.java:236-258 | a frame the writer assembled, standing in the buffer with the length its header announces, passes the check and decodes from exactly its bytes |
| StreamFraming.CorruptFrameRejected | app/src/main/java/net/wimpi/modbus/io/ModbusRTUTCPTransport.java:239-247 | a frame whose last two bytes are not the CRC of the rest is rejected with the CRC error |
| StreamFraming.ThreeByteCodes | app/src/main/java/net/wimpi/modbus/io/ModbusRTUTCPTransport.java:332-338 | for 0x07 and 0x08 the check accepts exactly when function code and byte 2 are the CRC of the unit id alone |
| StreamFraming.UnknownCodeEscapes | app/src/main/java/net/wimpi/modbus/io/ModbusRTUTCPTransport.java:236-243 | a function code outside the table ends in the bad index |
| TcpTransport.WifiHead | app/src/main/java/net/wimpi/modbus/io/ModbusRTUTCPTransport.java:179-193 | the envelope head is 9 bytes |
| TcpTransport.WifiHeadRoundTrip | app/src/main/java/net/wimpi/modbus/io/ModbusRTUTCPTransport.java:179-193 | every head built is recognised as a wifi head, carries the module's address byte, and announces the frame length modulo 2^16, so exactly the length below 64 KiB |
| TcpTransport.WireBytes | app/src/main/java/net/wimpi/modbus/io/ModbusRTUTCPTransport.java:145-157 | outside mode 100 the frame goes out as it is; in mode 100 something goes out exactly when head and frame fit the 100-byte send buffer |
| TcpTransport.EnvelopeUnwraps | app/src/main/java/net/wimpi/modbus/io/ModbusRTUTCPTransport.java:146-154 | a receiver recovers the frame from an envelope: a valid head with the address, announcing the length of exactly the frame that follows |
| TcpTransport.SkipWifiHead | app/src/main/java/net/wimpi/modbus/io/ModbusRTUTCPTransport.java:218-223 | one to nine bytes are dropped; the envelope failure is reported exactly when the peer hung up with nothing sent; a read failure drains |
| TcpTransport.Transport.constructor | app/src/main/java/net/wimpi/modbus/io/ModbusRTUTCPTransport.java:64-71 | without a socket the transport has no streams, with the mode and address byte given |
| TcpTransport.Transport.SetSocket | app/src/main/java/net/wimpi/modbus/io/ModbusRTUTCPTransport.java:80-102 | the old streams are closed; an earlier failed installation makes the call dereference null; otherwise the socket is taken, and its streams exactly when it is open and connected, else the socket error |
| TcpTransport.Transport.WriteMessage | app/src/main/java/net/wimpi/modbus/io/ModbusRTUTCPTransport.java:112-172 | the write succeeds exactly when there is an open stream and the wire bytes fit; then exactly `WireBytes` is appended to the output, with the head in the send buffer in mode 100; every failure is the write failure |
| TcpTransport.Transport.ReadRequest | app/src/main/java/net/wimpi/modbus/io/ModbusRTUTCPTransport.java:196-200 | always fails with "Operation not supported" |
| TcpTransport.Transport.ReadResponse | app/src/main/java/net/wimpi/modbus/io/ModbusRTUTCPTransport.java:203-273 | without streams, a null dereference; a decoded response comes from a frame with a correct CRC, which for a byte-count code is exactly what followed the skipped envelope of 1 to 9 bytes in mode 100 (nothing skipped otherwise); the failures are the listed ones, and the read failure drains |
| TcpTransport.Transport.Close | app/src/main/java/net/wimpi/modbus/io/ModbusRTUTCPTransport.java:367-372 | the streams' socket is closed; without streams, a null dereference |
| TcpTransport.Create | app/src/main/java/net/wimpi/modbus/io/ModbusRTUTCPTransport.java:64-71 | construction fails with the socket error exactly when a socket is given that is closed or not connected; otherwise the new transport uses that socket's streams |
| BtTransport.Transport.constructor | app/src/main/java/net/wimpi/modbus/io/ModbusRTUBluetoothTransport.java:42-45 | the transport uses the socket given |
| BtTransport.Transport.SetSocket | app/src/main/java/net/wimpi/modbus/io/ModbusRTUBluetoothTransport.java:47-63 | the streams in use are closed, and the new socket is taken |
| BtTransport.Transport.WriteMessage | app/src/main/java/net/wimpi/modbus/io/ModbusRTUBluetoothTransport.java:72-104 | the write succeeds exactly when the socket is set and open, and then appends exactly the frame with its CRC; every failure is the write failure |
| BtTransport.Transport.ReadRequest | app/src/main/java/net/wimpi/modbus/io/ModbusRTUBluetoothTransport.java:106-109 | always fails with "Operation not supported" |
| BtTransport.Transport.ReadResponse | app/src/main/java/net/wimpi/modbus/io/ModbusRTUBluetoothTransport.java:112-164 | without a socket, a null dereference; a decoded response comes from a frame with a correct CRC, which for a byte-count code is exactly what was taken from the stream; the read failure drains |
| BtTransport.Transport.Close | app/src/main/java/net/wimpi/modbus/io/ModbusRTUBluetoothTransport.java:65-69 | the socket is closed; without one, a null dereference |
| TcpConnection.Connection.constructor | app/src/main/java/net/wimpi/modbus/net/RTUTCPMasterConnection.java:50-54 | address and port as given, no socket, no transport, not connected |
| TcpConnection.Connection.IsConnected | app/src/main/java/net/wimpi/modbus/net/RTUTCPMasterConnection.java:221-225 | reports the flag that `connect` sets and `close` clears |
| TcpConnection.Connection.Connect | app/src/main/java/net/wimpi/modbus/net/RTUTCPMasterConnection.java:63-89 | when connected, no state changes: the connection, its transport and the transport's stream are unchanged; otherwise it succeeds exactly when the slave is reached, with a fresh open socket bound to the transport; the transport is created once and rebound (closing its old streams) afterwards; a failure leaves it not connected and changes neither the connection, nor the transport, nor its stream |
| TcpConnection.Connection.Close | app/src/main/java/net/wimpi/modbus/net/RTUTCPMasterConnection.java:94-116 | afterwards not connected; when it was connected the transport's socket is closed, otherwise nothing is touched |
| TcpConnection.Connection.ModbusTransport | app/src/main/java/net/wimpi/modbus/net/RTUTCPMasterConnection.java:124-127 | answers the transport the connection prepared |
| TcpConnection.Connection.SetPort | app/src/main/java/net/wimpi/modbus/net/RTUTCPMasterConnection.java:177-191 | `getPort` answers the port set |
| TcpConnection.Connection.SetAddress | app/src/main/java/net/wimpi/modbus/net/RTUTCPMasterConnection.java:199-214 | `getAddress` answers the address set |
| BtConnection.Connection.constructor | app/src/main/java/net/wimpi/modbus/net/RTUBluetoothMasterConnection.java:41-56 | no socket, no transport, not connected |
| BtConnection.Connection.IsConnected | app/src/main/java/net/wimpi/modbus/net/RTUBluetoothMasterConnection.java:107-110 | reports the flag that `connect` sets and `close` clears |
| BtConnection.Connection.Connect | app/src/main/java/net/wimpi/modbus/net/RTUBluetoothMasterConnection.java:58-105 | when connected, no state changes: the connection, its transport and the transport's socket are unchanged; a failure leaves the flag down and the transport and its old socket unchanged; a socket that could not be created is a null dereference; a refused connect closes the socket; a socket that does not report itself connected is an IOException; only an established socket gets bound to the transport (created once, rebound afterwards) and sets the flag |
| BtConnection.Connection.Close | app/src/main/java/net/wimpi/modbus/net/RTUBluetoothMasterConnection.java:112-127 | afterwards not connected; when it was connected the socket is closed and forgotten, otherwise nothing changes |
| BtConnection.Connection.ModbusTransport | app/src/main/java/net/wimpi/modbus/net/RTUBluetoothMasterConnection.java:137-139 | answers the transport the connection prepared |
| TransactionSupport.Mutex.Acquire | app/src/main/java/net/wimpi/modbus/io/ModbusRTUTCPTransaction.java:164 | the lock is taken unless the wait is interrupted, which throws without taking it |
| TransactionSupport.Mutex.Release | app/src/main/java/net/wimpi/modbus/io/ModbusRTUTCPTransaction.java:220-223 | the lock is free afterwards, whoever held it |
| TransactionSupport.AtomicCounter.Increment | app/src/main/java/net/wimpi/modbus/io/ModbusRTUTCPTransaction.java:183 | the counter grows by one and the new value is answered |
| TransactionSupport.Link.Connect | app/src/main/java/net/wimpi/modbus/io/ModbusRTUTCPTransaction.java:167-178 | nothing when connected; otherwise connecting succeeds exactly when the connection can be made, and then yields its transport |
| TransactionSupport.Link.Close | app/src/main/java/net/wimpi/modbus/io/ModbusRTUTCPTransaction.java:204-207 | the connection is no longer connected |
| TransactionSupport.Rewrap | app/src/main/java/net/wimpi/modbus/io/ModbusRTUTCPTransaction.java:180-195 | a failure is a `ModbusIOException` after rewrapping exactly when it was one before; only a `ModbusIOException` under rewrapping changes |
| TransactionSupport.WriteOutcome | app/src/main/java/net/wimpi/modbus/io/ModbusRTUBluetoothTransport.java:72-104 | with a request the write ends as the transport says |
| TransactionSupport.MiddleSteps | app/src/main/java/net/wimpi/modbus/io/ModbusRTUTCPTransaction.java:185-213 | the exchange writes once first, reads right after on the same transport only when the write went through, and takes the closing and validity steps exactly after a normal response |
| TransactionSupport.MiddleResult | app/src/main/java/net/wimpi/modbus/io/ModbusRTUTCPTransaction.java:185-201 | the exchange succeeds exactly on a normal response, ends with the slave error exactly on an exception response, and otherwise with the transport's failure, rewrapped when asked, or the null dereference |
| TcpTransaction.LockDiscipline | app/src/main/java/net/wimpi/modbus/io/ModbusRTUTCPTransaction.java:150-224 | without request or connection the lock is never touched; otherwise the lock is asked for first and released exactly once, as the last step, interrupted or not |
| TcpTransaction.ConnectsWhenNeeded | app/src/main/java/net/wimpi/modbus/io/ModbusRTUTCPTransaction.java:166-178 | `connect` is called exactly when the connection is not connected; if it fails the execution ends with "Connecting failed." before any stamp or write; the transport is fetched again exactly after a successful connect |
| TcpTransaction.StampedOnce | app/src/main/java/net/wimpi/modbus/io/ModbusRTUTCPTransaction.java:183 | exactly the executions that get past connecting take the counter's next value once, and it stands right before the write |
| TcpTransaction.WritesThenReads | app/src/main/java/net/wimpi/modbus/io/ModbusRTUTCPTransaction.java:186-190 | the request is written at most once, to the transport the execution ends up with, and each read follows the write on that transport; a request is written exactly when connecting succeeded and that transport is not null |
| TcpTransaction.Outcome | app/src/main/java/net/wimpi/modbus/io/ModbusRTUTCPTransaction.java:150-224 | the execution succeeds exactly on a normal response; ends with the slave error exactly on an exception response; every `ModbusIOException` of the transport becomes "Executing transaction failed."; a null transport is a null dereference |
| TcpTransaction.NormalRun | app/src/main/java/net/wimpi/modbus/io/ModbusRTUTCPTransaction.java:150-224 | a successful execution takes exactly: the lock, connecting if needed, the stamp, the write, the read, closing when reconnecting, the validity hook when checking, and the release |
| TcpTransaction.Epilogues | app/src/main/java/net/wimpi/modbus/io/ModbusRTUTCPTransaction.java:203-213 | the connection is closed exactly when reconnecting is set and the execution succeeds; the validity hook runs exactly when checking is set and it succeeds |
| TcpTransaction.Transaction.Empty | app/src/main/java/net/wimpi/modbus/io/ModbusRTUTCPTransaction.java:25-40 | nothing set, a fresh free lock, validity checking on, reconnecting off |
| TcpTransaction.Transaction.WithRequest | app/src/main/java/net/wimpi/modbus/io/ModbusRTUTCPTransaction.java:50-53 | only the request set, with the same defaults |
| TcpTransaction.Transaction.WithConnection | app/src/main/java/net/wimpi/modbus/io/ModbusRTUTCPTransaction.java:63-66 | the connection set and its current transport taken |
| TcpTransaction.Transaction.SetConnection | app/src/main/java/net/wimpi/modbus/io/ModbusRTUTCPTransaction.java:79-83 | the connection and its current transport are taken; nothing else changes |
| TcpTransaction.Transaction.SetRequest | app/src/main/java/net/wimpi/modbus/io/ModbusRTUTCPTransaction.java:85-88 | the request is set; nothing else changes |
| TcpTransaction.Transaction.GetRequest | app/src/main/java/net/wimpi/modbus/io/ModbusRTUTCPTransaction.java:90-93 | answers the request set |
| TcpTransaction.Transaction.GetResponse | app/src/main/java/net/wimpi/modbus/io/ModbusRTUTCPTransaction.java:95-98 | answers the response last read |
| TcpTransaction.Transaction.TransactionID | app/src/main/java/net/wimpi/modbus/io/ModbusRTUTCPTransaction.java:100-103 | answers the shared counter's current value |
| TcpTransaction.Transaction.SetCheckingValidity | app/src/main/java/net/wimpi/modbus/io/ModbusRTUTCPTransaction.java:105-108 | sets the validity flag; nothing else changes |
| TcpTransaction.Transaction.IsCheckingValidity | app/src/main/java/net/wimpi/modbus/io/ModbusRTUTCPTransaction.java:110-113 | answers the validity flag |
| TcpTransaction.Transaction.SetReconnecting | app/src/main/java/net/wimpi/modbus/io/ModbusRTUTCPTransaction.java:123-126 | sets the reconnecting flag; nothing else changes |
| TcpTransaction.Transaction.IsReconnecting | app/src/main/java/net/wimpi/modbus/io/ModbusRTUTCPTransaction.java:135-138 | answers the reconnecting flag |
| TcpTransaction.Transaction.Retries | app/src/main/java/net/wimpi/modbus/io/ModbusRTUTCPTransaction.java:140-143 | never retries: 0 |
| TcpTransaction.Transaction.SetRetries | app/src/main/java/net/wimpi/modbus/io/ModbusRTUTCPTransaction.java:145-148 | changes nothing |
| TcpTransaction.Transaction.CheckValidity | app/src/main/java/net/wimpi/modbus/io/ModbusRTUTCPTransaction.java:248-250 | changes nothing |
| TcpTransaction.Transaction.Execute | app/src/main/java/net/wimpi/modbus/io/ModbusRTUTCPTransaction.java:150-224 | result and steps are `TcpRun` of the old state; the lock ends free once it was asked for; the counter grows and stamps the request exactly when connecting succeeded; the transport is refetched exactly after connecting; the response is stored exactly when one is read; the connection ends closed exactly after a successful exchange with reconnecting set |
| BtTransaction.LockDiscipline | app/src/main/java/net/wimpi/modbus/io/ModbusRTUBluetoothTransaction.java:67-92 | the lock is asked for first and released exactly once, as the last step, interrupted or not |
| BtTransaction.ConnectsWhenNeeded | app/src/main/java/net/wimpi/modbus/io/ModbusRTUBluetoothTransaction.java:71-78 | `connect` is called exactly when not connected; its failure ends with "Connecting failed." before any write; the transport is fetched again exactly after a successful connect |
| BtTransaction.WritesThenReads | app/src/main/java/net/wimpi/modbus/io/ModbusRTUBluetoothTransaction.java:80-81 | at most one write, right after connecting, to the transport in use, and each read follows it on that transport; a write happens exactly when connecting succeeded and there is a transport |
| BtTransaction.Outcome | app/src/main/java/net/wimpi/modbus/io/ModbusRTUBluetoothTransaction.java:67-92 | success exactly on a normal response; the slave error exactly on an exception response; otherwise the transport's own failure, the write failure without a request, or the null dereference without a transport |
| BtTransaction.NormalRun | app/src/main/java/net/wimpi/modbus/io/ModbusRTUBluetoothTransaction.java:67-92 | a successful execution takes exactly: the lock, connecting if needed, the write, the read, the release |
| BtTransaction.Transaction.constructor | app/src/main/java/net/wimpi/modbus/io/ModbusRTUBluetoothTransaction.java:19-24 | the connection and its current transport are taken, with a fresh free lock |
| BtTransaction.Transaction.SetRequest | app/src/main/java/net/wimpi/modbus/io/ModbusRTUBluetoothTransaction.java:26-29 | the request is set; transport and response stay |
| BtTransaction.Transaction.GetRequest | app/src/main/java/net/wimpi/modbus/io/ModbusRTUBluetoothTransaction.java:31-34 | answers the request set |
| BtTransaction.Transaction.GetResponse | app/src/main/java/net/wimpi/modbus/io/ModbusRTUBluetoothTransaction.java:36-39 | answers the response last read |
| BtTransaction.Transaction.TransactionID | app/src/main/java/net/wimpi/modbus/io/ModbusRTUBluetoothTransaction.java:41-44 | no transaction id: 0 |
| BtTransaction.Transaction.SetRetries | app/src/main/java/net/wimpi/modbus/io/ModbusRTUBluetoothTransaction.java:46-49 | changes nothing |
| BtTransaction.Transaction.Retries | app/src/main/java/net/wimpi/modbus/io/ModbusRTUBluetoothTransaction.java:51-54 | never retries: 0 |
| BtTransaction.Transaction.SetCheckingValidity | app/src/main/java/net/wimpi/modbus/io/ModbusRTUBluetoothTransaction.java:56-59 | changes nothing |
| BtTransaction.Transaction.IsCheckingValidity | app/src/main/java/net/wimpi/modbus/io/ModbusRTUBluetoothTransaction.java:61-64 | never checking |
| BtTransaction.Transaction.Execute | app/src/main/java/net/wimpi/modbus/io/ModbusRTUBluetoothTransaction.java:66-92 | result and steps are `BtRun` of the old state; the lock ends free; the transport is refetched exactly after connecting; the response is stored exactly when one is read; the connection ends connected exactly when it was or connecting succeeded |
| BleTransaction.NoLock | app/src/main/java/net/wimpi/modbus/io/ModbusRTUBLETransaction.java:69-90 | no lock is asked for or released on any path; a missing connection is a null dereference before any step |
| BleTransaction.FetchesEveryTime | app/src/main/java/net/wimpi/modbus/io/ModbusRTUBLETransaction.java:74-83 | `connect` is called exactly when not connected, its failure ends with "Connecting failed." before any fetch; every execution past it fetches the transport, right before the write |
| BleTransaction.WritesThenReads | app/src/main/java/net/wimpi/modbus/io/ModbusRTUBLETransaction.java:83-85 | at most one write, to the transport just fetched, and each read follows it on that transport; a write happens exactly when connecting succeeded and there is a transport |
| BleTransaction.Outcome | app/src/main/java/net/wimpi/modbus/io/ModbusRTUBLETransaction.java:69-90 | success exactly on a normal response; the slave error exactly on an exception response; otherwise the transport's own failure or the null dereference |
| BleTransaction.Transaction.constructor | app/src/main/java/net/wimpi/modbus/io/ModbusRTUBLETransaction.java:23-25 | only the connection is set; the transport is fetched when executing |
| BleTransaction.Transaction.SetRequest | app/src/main/java/net/wimpi/modbus/io/ModbusRTUBLETransaction.java:27-30 | the request is set; transport and response stay |
| BleTransaction.Transaction.GetRequest | app/src/main/java/net/wimpi/modbus/io/ModbusRTUBLETransaction.java:32-35 | answers the request set |
| BleTransaction.Transaction.GetResponse | app/src/main/java/net/wimpi/modbus/io/ModbusRTUBLETransaction.java:37-40 | answers the response last read |
| BleTransaction.Transaction.TransactionID | app/src/main/java/net/wimpi/modbus/io/ModbusRTUBLETransaction.java:42-45 | no transaction id: 0 |
| BleTransaction.Transaction.SetRetries | app/src/main/java/net/wimpi/modbus/io/ModbusRTUBLETransaction.java:47-50 | changes nothing |
| BleTransaction.Transaction.Retries | app/src/main/java/net/wimpi/modbus/io/ModbusRTUBLETransaction.java:52-55 | never retries: 0 |
| BleTransaction.Transaction.SetCheckingValidity | app/src/main/java/net/wimpi/modbus/io/ModbusRTUBLETransaction.java:57-61 | changes nothing |
| BleTransaction.Transaction.IsCheckingValidity | app/src/main/java/net/wimpi/modbus/io/ModbusRTUBLETransaction.java:63-67 | never checking |
| BleTransaction.Transaction.Execute | app/src/main/java/net/wimpi/modbus/io/ModbusRTUBLETransaction.java:69-90 | without a connection, the null dereference and nothing changed; otherwise result and steps are `BleRun` of the old state, the transport is the one fetched, the response is stored exactly when one is read, and the connection is connected exactly when it was or connecting succeeded |

## Left out

- Message bodies: `writeTo`, `readFrom` and `createModbusResponse` are not part of this model. A request is its serialised bytes and a response is its function code and frame.
- Messages.Decode: it is the stand-in for `createModbusResponse(functionCode)` and `readFrom`, whose code is not part of this model. It assumes that the factory builds an `ExceptionResponse` exactly for function codes with bit 0x80 set, carrying byte 2 as the exception code. If the factory of this fork builds an `ExceptionResponse` for codes it does not list (as a `default:` branch may), normal responses to such codes would count as slave errors, and `TcpTransaction.Outcome`, `BtTransaction.Outcome`, `BleTransaction.Outcome` and `TransactionSupport.MiddleResult` would not describe them.
- `ModbusUtil.calculateCRC` is not part of this model. The CRC is the CRC-16 of the serial line specification, section 6.2.2 (polynomial 0xA001, initial value 0xFFFF, low byte sent first), pinned down by `RtuFrame.CrcKnownAnswer`; the other proofs use only that it is a function of the bytes.
- `Modbus.java` is not part of this model. Its constants are taken as `MAX_MESSAGE_LENGTH` = 256, validity checking on by default, reconnecting off by default. The first transaction id is the counter's initial value, passed in.
- Threads, `wait`/`notify` and `Thread.sleep` are not modelled as time. Each timed wait is replaced by its outcome:
  - the BLE write's acknowledgement (`WriteAck`);
  - the notifications delivered before the read checks its flag;
  - the Bluetooth connection's 2-second sleep, taken to be long enough for the UI thread to create the socket.
- `Mutex.acquire` does not block in the model: it either takes the lock or is interrupted. Concurrent executions and the `synchronized` blocks are not modelled.
- Socket timeouts (`setSoTimeout`, `setTimeout`) are not modelled as time. A read that times out is the read's IOException. A classic-Bluetooth read has no timeout, so the program blocks while a silent slave sends nothing, both in `readResponse` and in the drain loop of `cleanInputStream` after an IOException; the model ends each such wait with the read's IOException instead.
- I/O beyond the socket's byte queues is not modelled: logging, `System.out`, the Android `Handler` that carries BLE writes to the radio (the outbox records what was handed over), and the RFCOMM socket's creation inside the UI thread (its outcome is a parameter).
- `RTUBLEMasterConnection` and `MasterConnection` are not part of this model. The three executors see their connection only as `isConnected`, `connect`, `getModbusTransport` and `close` (`TransactionSupport.Link`). They see the transport only through the outcomes of its write and read (`Env`); the transports themselves are modelled in their own modules.
- Streams.Socket.Read: one end-of-stream rule serves both sockets: the bounds are checked first, and -1 is returned while the peer has hung up and nothing is left. Neither platform quite does this. Android's `BluetoothSocket.read` throws an `IOException` when RFCOMM reports the end, so a Bluetooth hang-up would take the drain path of `readResponse` instead of the -1 test. A TCP `SocketInputStream` that has once returned -1 returns -1 again before checking the bounds. So the results that need a -1 from the peer are not promised as the platforms behave: `StreamFraming.ReadHeader`'s premature end of stream and `StreamFraming.FillRemaining`'s walk of the offset down to a bad index, with `TcpTransport.SkipWifiHead`, `BtTransport.Transport.ReadResponse` and `TcpTransport.Transport.ReadResponse` built on them. On Bluetooth those two failures come out as the drained read failure, and on TCP the loop after a hang-up keeps reading -1 without reaching the bad index.
- BtTransaction.Transaction.constructor: a null connection is not accepted, because `con.getModbusTransport()` would throw a `NullPointerException` at once.
- TcpTransaction.Transaction.WithConnection: a null connection is not accepted, because the constructor's `setConnection` calls `con.getModbusTransport()` and would throw a `NullPointerException` at once.
- BleTransaction.Transaction.Execute: it assumes, through `TransactionSupport.Link.Connect`, that a failed `connect` leaves the connection not connected. `RTUBLEMasterConnection` is not part of this model, and its `connect` can break this: when the GATT link comes up but no write characteristic is found, it throws while its state stays connected. The next `execute` would then skip `connect` and write to the old transport, which is null on a first attempt. The model instead connects again on the next `execute`.
- TcpTransaction.Transaction.SetConnection: a null connection is not accepted, because `con.getModbusTransport()` would throw at once.
- TcpTransaction.Transaction.Execute: the shared counter is unbounded, so the wrap-around of the Java `int` after 2^31 - 1 transactions is not modelled.
- StreamFraming.ReadFrame: it does not promise a round trip for every frame on the wire. A header read may take only one byte, and the reads of fixed-length bodies may be short, leaving zeros behind. The round trip is proved on buffers by `StreamFraming.AssembledFrameAccepted`, and for byte-count frames the method promises that the accepted frame is exactly what was read.
- RtuFrame.CorruptedCrcRejected: only corruption of the CRC bytes is covered. The CRC's detection of errors in the payload bytes is not proved.
