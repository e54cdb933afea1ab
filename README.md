# BLESerial in Dafny

A model of `BLESerial`, a serial bridge over Bluetooth Low Energy in the style of the Nordic UART service. A peer writes bytes to an RX characteristic. The stack's write callback pushes them into a bounded receive queue of `RX_BUF` = 100 entries. The application drains that queue with `available`, `readStringUntil` and `flush`. The stack's connect and disconnect callbacks set a connection flag. The application loop compares that flag with the value it saw on its previous pass. It restarts advertising at most once per disconnect, and only after a disconnect whose connection a previous pass had seen. A self-test path notifies the 6-byte payload `"testD\n"` on the TX characteristic, where D is a digit that rolls from 0 to 9.

Files:

- `byte_queue.dfy` (module `ByteQueue`): the queue as a sequence of bytes. `Send` models one `xQueueSend` with zero timeout. `SendAll` sends a whole payload byte by byte. `ReadUntil` models `readStringUntil` as a value. The lemmas cover capacity, FIFO order and delimiter splitting.
- `connection.dfy` (module `Connection`): the connection flags and the advertising count as a value `Link`. It holds the callbacks (`Attach`, `Detach`), one edge-detecting pass of the loop (`Poll`), and runs of events with lemmas about how often advertising restarts.
- `test_notifier.dfy` (module `TestNotifier`): the test payload, its inverse `ParseTestPayload`, and its rollover.
- `ble_serial.dfy` (module `Serial`): the class `BLESerial`. Its fields are the ones the source declares and uses: `deviceConnected`, `oldDeviceConnected`, `loopTest`, the receive queue, and the static `counter` and `text` buffer of `sendTest`. Three ghost fields record the radio-stack effects: advertising starts, the last TX characteristic value and the number of notifications. `QueueSend`, `OnWrite`, `ReadStringUntil`, `SendTest`, `OnConnect`, `OnDisconnect` and `Loop` are proved against the functions above. `Begin`, `Available`, `Flush` and `QueueReceive` state their effect on the fields directly. Each method's `modifies` frame names the only fields it may change, so "nothing else changes" is checked by the frame. `ReadAfterDisconnect` is a client that combines the method contracts.

Callbacks are modelled as ordinary sequential method calls. The bytes of a write arrive as the parameter `rxValue` of `OnWrite` (in the source, `pCharacteristic->getValue()`).

The branch of `loop` that restarts advertising after a disconnect (include/BLESerial.h:82-88) fires only when a pass of the loop has seen the connection first. One might expect a restart after every disconnect, but that is not what the code does. A connect followed by a disconnect with no loop pass between them leaves `oldDeviceConnected` false, so advertising is never restarted for that connection (`Connection.UnobservedConnectionNotReadvertised`). The model follows the code. `Connection.AdvertisementsBounded` states the bound that does hold for every run: at most one restart per disconnect.

## Model

| member | source | states |
|---|---|---|
| `ByteQueue.Send` | include/BLESerial.h:174 | one send with zero timeout appends the byte when fewer than `RX_BUF` bytes are queued and otherwise leaves the queue unchanged; the old contents always stay in front and a queue within capacity stays within it |
| `ByteQueue.SendAll` | include/BLESerial.h:171-176 | each byte of the payload is sent by `Send` in payload order; the old contents stay in front, at most the whole payload is added, and a queue within capacity stays within it |
| `ByteQueue.SendAllKeepsPrefix` | include/BLESerial.h:168-177 | sending a payload byte by byte into a queue of at most 100 leaves `old + payload[..min(|payload|, 100 - |old|)]`: the bytes that fit, in payload order; the rest are dropped |
| `ByteQueue.SendAllBounded` | include/BLESerial.h:172-175 | after a payload the queue holds at most `RX_BUF` bytes, exactly `RX_BUF` when the payload overflowed it, and all of `old + payload` when it fits |
| `ByteQueue.ReadUntil` | include/BLESerial.h:106-120 | the line read never contains the delimiter, and what stays queued is an unchanged suffix of the old contents |
| `ByteQueue.ReadUntilAtDelimiter` | include/BLESerial.h:114-116 | a queue `line + [c] + rest` with no `c` in `line` reads as `line` and leaves exactly `rest` |
| `ByteQueue.ReadUntilNoDelimiter` | include/BLESerial.h:109-119 | a queue without the delimiter reads back whole and ends empty |
| `ByteQueue.ReadUntilOutcomes` | include/BLESerial.h:106-120 | both outcomes for every queue: with `c` queued the line is the prefix before its first occurrence, the queue keeps what follows it, and line + `[c]` + rest is the old queue; otherwise the line is the whole queue and the queue empties |
| `ByteQueue.PushedLineReadBack` | include/BLESerial.h:106-120 | FIFO end to end: a line written after queued bytes comes back behind them in the order sent, and the bytes after the delimiter stay queued |
| `ByteQueue.DelimiterSplitExample` | include/BLESerial.h:106-120 | after writing "ab\ncd\n", three reads up to '\n' give "ab", "cd" and an empty line from the empty queue |
| `ByteQueue.PartialLineExample` | include/BLESerial.h:109-119 | after writing "abc", a read up to '\n' returns the partial line "abc" and empties the queue |
| `Connection.Attach` | include/BLESerial.h:145-147 | the connect callback sets the connection flag and touches neither the previous-pass flag nor advertising |
| `Connection.Detach` | include/BLESerial.h:149-151 | the disconnect callback clears the connection flag and touches neither the previous-pass flag nor advertising |
| `Connection.Poll` | include/BLESerial.h:82-93 | after a loop pass the previous-pass flag equals the connection flag, and advertising was restarted exactly once when a disconnect was pending (disconnected now, connected at the previous pass), otherwise not |
| `Connection.TicksWhileDetached` | include/BLESerial.h:83-88 | once a disconnect has been seen, any number of further passes while disconnected change nothing and do not restart advertising again |
| `Connection.TicksWhileAttached` | include/BLESerial.h:90-93 | once a connection has been seen, further passes while connected change nothing |
| `Connection.TicksAfterFirst` | include/BLESerial.h:82-93 | n+1 passes with no callback between them have the effect of the first pass alone |
| `Connection.DisconnectAdvertisesOnce` | include/BLESerial.h:83-88 | from a seen connection, a disconnect followed by one or more passes restarts advertising exactly once and ends with both flags false |
| `Connection.ConnectionCycle` | include/BLESerial.h:74-94 | from any settled state, connect, passes, disconnect, passes restarts advertising exactly once and ends settled and disconnected, so every further cycle restarts it once more |
| `Connection.UnobservedConnectionNotReadvertised` | include/BLESerial.h:83-93 | a connect and disconnect with no pass between them leave the state unchanged: no restart of advertising for that connection |
| `Connection.AdvertisementsBounded` | include/BLESerial.h:83-88 | over any run of callbacks and passes, restarts of advertising (counting a pending one) never exceed the disconnect callbacks in the run (plus one pending at its start) |
| `TestNotifier.Digit` | include/BLESerial.h:135 | the rolling digit is always one of the characters '0'..'9' |
| `TestNotifier.TestPayload` | include/BLESerial.h:133-137 | the test payload is 6 bytes long |
| `TestNotifier.TestPayloadRoundTrip` | include/BLESerial.h:132-139 | the payload for counter k has the form "testD\n" and carries D = k mod 10 |
| `TestNotifier.ParsedPayloadIsTestPayload` | include/BLESerial.h:133-137 | every byte string of the form "testD\n" is exactly the payload for counter value D |
| `TestNotifier.TestPayloadPeriodic` | include/BLESerial.h:135 | two counter values give the same payload if and only if they agree modulo 10 |
| `Serial.BLESerial.constructor` | include/BLESerial.h:180-186 | a new bridge is disconnected, the loop has seen no connection, test mode is off, the queue is empty, the counter is 0 and the text buffer holds "test0\n" |
| `Serial.BLESerial.Begin` | include/BLESerial.h:40-72 | the receive queue is (re)created empty and advertising is started once; nothing else modelled changes |
| `Serial.BLESerial.QueueSend` | include/BLESerial.h:174 | the queue becomes `Send(old queue, b)`, and the result says whether the queue held fewer than `RX_BUF` bytes, that is, whether the byte was appended |
| `Serial.BLESerial.QueueReceive` | include/BLESerial.h:110 | one receive from a non-empty queue returns its oldest byte and removes exactly that byte |
| `Serial.BLESerial.OnWrite` | include/BLESerial.h:168-177 | the queue becomes `SendAll(old, rxValue)`, which is `old + rxValue[..min(|rxValue|, 100 - |old|)]`; the capacity invariant holds; only the queue changes |
| `Serial.BLESerial.Available` | include/BLESerial.h:96-104 | returns true if and only if a peer is connected and the queue is non-empty; changes nothing |
| `Serial.BLESerial.ReadStringUntil` | include/BLESerial.h:106-120 | the result and the new queue are `ReadUntil(old queue, c)`: the delimiter is never returned; with `c` queued, line + `[c]` + new queue is the old queue, otherwise the whole queue is returned and it empties; the connection flags are outside its frame |
| `Serial.BLESerial.Flush` | include/BLESerial.h:122-130 | the queue ends empty and nothing else changes, so on an empty queue it is a no-op and a second call changes nothing |
| `Serial.BLESerial.SendTest` | include/BLESerial.h:132-139 | the TX characteristic's value becomes `TestPayload(old counter)`, which is also the first 6 bytes of the text buffer; one notification is pushed; the counter goes up by one |
| `Serial.BLESerial.OnConnect` | include/BLESerial.h:145-147 | the state moves by `Connection.Attach` and the object invariant is kept: only `deviceConnected` changes, and the queue and `oldDeviceConnected` are kept |
| `Serial.BLESerial.OnDisconnect` | include/BLESerial.h:149-151 | the state moves by `Connection.Detach` and the object invariant is kept: only `deviceConnected` changes, and queued bytes survive the disconnect |
| `Serial.BLESerial.Loop` | include/BLESerial.h:74-94 | the connection state moves by `Connection.Poll`: advertising is restarted exactly when disconnected now and connected at the previous pass, and afterwards `oldDeviceConnected == deviceConnected`; a test notification is sent exactly when connected in test mode; the queue is outside its frame |
| `Serial.ReadAfterDisconnect` | include/BLESerial.h:96-120 | after "ab\ncd" is written and the peer disconnects, `available` is false, yet reads up to '\n' still give "ab" and then the partial line "cd" |

## Left out

- The radio setup in `begin` is not modelled: device init, server, service and characteristic creation, UUID strings, callback registration and service start. It consists of calls into the NimBLE library, which is not part of this model. `Begin` keeps only the queue creation and the first advertising start.
- A failed `xQueueCreate` is not modelled. Nor is using the queue handle before `begin` has run. The model's queue exists, empty, from construction.
- The `xQueueReceive` failure branches in `readStringUntil` and `flush` are not modelled. They only trigger when a concurrent consumer empties the queue between the length check and the receive. In sequential calls the receive from a non-empty queue always succeeds, which is what `QueueReceive` requires.
- Concurrency between the radio stack's callback task and the application loop is not modelled. Callbacks are sequential method calls.
- `Serial.println`, `Serial.flush` and the `delay` calls are not modelled. They are logging and timing, with no effect on state.
- The radio transmission behind `setValue` and `notify` is not modelled. It is recorded as the ghost fields `txCharacteristicValue` and `notifications`.
- The unused `mock` parameter, the unused `txValue` field and the commented-out passkey callbacks are not modelled.
- `loopTest` is a field that nothing sets. It is false from construction, as in the source, which has no setter either.
- Serial.BLESerial.SendTest: the counter is an unbounded `nat`. The source's `int` counter overflows after 2^31 calls, which is undefined behaviour in C++, so that case is not modelled. The function-static `counter` and `text` are fields of the object, although in C++ they are shared by all instances.
