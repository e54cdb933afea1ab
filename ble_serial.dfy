/** The serial-over-BLE bridge object: connection flags updated by the radio
    stack's callbacks, a bounded receive queue filled by the write callback
    and drained by the application, and the self-test notifier.

    Callbacks run here as ordinary sequential method calls. The radio-stack
    calls whose effect matters to the model are recorded in ghost fields:
    how often advertising was started, the last value written to the TX
    characteristic and how many notifications were pushed. */
module Serial {
  import opened ByteQueue
  import Connection
  import opened TestNotifier

  class BLESerial {
    var deviceConnected: bool
    var oldDeviceConnected: bool
    /** Test mode: when set, each pass of the loop with a peer attached sends a test notification. */
    var loopTest: bool
    /** Contents of the receive queue, oldest byte first. */
    var receiveQueue: seq<Byte>
    /** The function-static counter and 7-byte text buffer of the test notifier. */
    var counter: nat
    const text: array<Byte>

    /** Times advertising was started, by `Begin` or by the loop after a disconnect. */
    ghost var advertisingStarts: nat
    /** The value last written to the TX characteristic. */
    ghost var txCharacteristicValue: seq<Byte>
    /** Notifications pushed on the TX characteristic. */
    ghost var notifications: nat

    ghost predicate Valid()
      reads this, text
    {
      |receiveQueue| <= RX_BUF &&
      text.Length == TEST_PAYLOAD_LEN + 1 &&
      text[..4] == TEST_PREFIX && IsDigit(text[4]) && text[5] == NEWLINE && text[6] == 0
    }

    /** The connection state machine's view of this object. */
    ghost function Link(): Connection.Link
      reads this
    {
      Connection.Link(deviceConnected, oldDeviceConnected, advertisingStarts)
    }

    constructor ()
      ensures Valid() && fresh(text)
      ensures !deviceConnected && !oldDeviceConnected && !loopTest
      ensures receiveQueue == [] && counter == 0 && text[..TEST_PAYLOAD_LEN] == TestPayload(0)
      ensures advertisingStarts == 0 && notifications == 0 && txCharacteristicValue == []
    {
      deviceConnected, oldDeviceConnected, loopTest := false, false, false;
      receiveQueue := [];
      counter := 0;
      text := new Byte[TEST_PAYLOAD_LEN + 1] [0x74, 0x65, 0x73, 0x74, 0x30, 0x0A, 0];
      advertisingStarts, notifications, txCharacteristicValue := 0, 0, [];
    }

    /** Creates the receive queue empty and starts advertising; the radio
        setup in between is not modelled. */
    method Begin()
      requires Valid()
      modifies this`receiveQueue, this`advertisingStarts
      ensures Valid()
      ensures receiveQueue == [] && advertisingStarts == old(advertisingStarts) + 1
    {
      receiveQueue := [];
      advertisingStarts := advertisingStarts + 1;
    }

    /** `xQueueSend` with a zero timeout: appends when there is room, drops
        the byte otherwise, and says which happened. */
    method QueueSend(b: Byte) returns (sent: bool)
      requires Valid()
      modifies this`receiveQueue
      ensures Valid()
      ensures sent == (|old(receiveQueue)| < RX_BUF)
      ensures receiveQueue == Send(old(receiveQueue), b)
    {
      sent := |receiveQueue| < RX_BUF;
      if sent {
        receiveQueue := receiveQueue + [b];
      }
    }

    /** `xQueueReceive` with a zero timeout on a non-empty queue: pops the oldest byte. */
    method QueueReceive() returns (b: Byte)
      requires Valid() && |receiveQueue| > 0
      modifies this`receiveQueue
      ensures Valid()
      ensures b == old(receiveQueue)[0] && receiveQueue == old(receiveQueue)[1..]
    {
      b := receiveQueue[0];
      receiveQueue := receiveQueue[1..];
    }

    /** The write callback: every byte of the written value is sent into the
        queue in order; bytes that find the queue full are dropped. */
    method OnWrite(rxValue: seq<Byte>)
      requires Valid()
      modifies this`receiveQueue
      ensures Valid()
      ensures receiveQueue == SendAll(old(receiveQueue), rxValue)
      ensures receiveQueue == old(receiveQueue) + rxValue[..Min(|rxValue|, RX_BUF - |old(receiveQueue)|)]
    {
      if |rxValue| > 0 {
        for i := 0 to |rxValue|
          invariant Valid()
          invariant receiveQueue == SendAll(old(receiveQueue), rxValue[..i])
        {
          var _ := QueueSend(rxValue[i]);
          assert rxValue[..i + 1][..i] == rxValue[..i];
        }
      }
      assert rxValue[..|rxValue|] == rxValue;
      SendAllKeepsPrefix(old(receiveQueue), rxValue);
    }

    /** Data is reported only while a peer is connected and the queue holds a byte. */
    method Available() returns (r: bool)
      ensures r <==> deviceConnected && |receiveQueue| > 0
    {
      if !deviceConnected {
        return false;
      }
      if |receiveQueue| == 0 {
        return false;
      }
      return true;
    }

    /** Reads up to and including the first `c`, returning the bytes before
        it; with no `c` queued, returns and removes everything. Works the
        same whether or not a peer is connected. */
    method ReadStringUntil(c: Byte) returns (s: seq<Byte>)
      requires Valid()
      modifies this`receiveQueue
      ensures Valid()
      ensures (s, receiveQueue) == ReadUntil(old(receiveQueue), c)
      ensures c !in s
      ensures c in old(receiveQueue) ==> old(receiveQueue) == s + [c] + receiveQueue
      ensures c !in old(receiveQueue) ==> s == old(receiveQueue) && receiveQueue == []
    {
      s := [];
      while |receiveQueue| > 0
        invariant Valid()
        invariant c !in s && old(receiveQueue) == s + receiveQueue
        decreases |receiveQueue|
      {
        ghost var before := receiveQueue;
        var b := QueueReceive();
        assert before == [b] + receiveQueue;
        if b == c {
          assert old(receiveQueue) == s + [c] + receiveQueue;
          ReadUntilAtDelimiter(s, receiveQueue, c);
          return;
        }
        s := s + [b];
      }
      assert old(receiveQueue) == s;
      ReadUntilNoDelimiter(s, c);
    }

    /** Discards every queued byte; on an empty queue it changes nothing. */
    method Flush()
      requires Valid()
      modifies this`receiveQueue
      ensures Valid()
      ensures receiveQueue == []
    {
      while |receiveQueue| > 0
        invariant Valid()
        decreases |receiveQueue|
      {
        var _ := QueueReceive();
      }
    }

    /** Writes "testD\n", D the counter modulo 10, as the TX characteristic's
        value, notifies it, and advances the counter. */
    method SendTest()
      requires Valid()
      modifies this`counter, this`txCharacteristicValue, this`notifications, text
      ensures Valid()
      ensures counter == old(counter) + 1
      ensures txCharacteristicValue == TestPayload(old(counter)) == text[..TEST_PAYLOAD_LEN]
      ensures notifications == old(notifications) + 1
    {
      text[4] := Digit(counter);
      counter := counter + 1;
      txCharacteristicValue := text[..TEST_PAYLOAD_LEN];
      notifications := notifications + 1;
      assert text[..TEST_PAYLOAD_LEN] == text[..4] + [text[4], text[5]];
    }

    /** The connect callback. */
    method OnConnect()
      requires Valid()
      modifies this`deviceConnected
      ensures Valid()
      ensures Link() == Connection.Attach(old(Link()))
    {
      deviceConnected := true;
    }

    /** The disconnect callback; queued bytes stay queued. */
    method OnDisconnect()
      requires Valid()
      modifies this`deviceConnected
      ensures Valid()
      ensures Link() == Connection.Detach(old(Link()))
    {
      deviceConnected := false;
    }

    /** One pass of the application loop: in test mode with a peer attached
        a test notification goes out; then the connection edges are detected
        and advertising is restarted after a disconnect. */
    method Loop()
      requires Valid()
      modifies this`oldDeviceConnected, this`advertisingStarts
      modifies this`counter, this`txCharacteristicValue, this`notifications, text
      ensures Valid()
      ensures Link() == Connection.Poll(old(Link()))
      ensures oldDeviceConnected == deviceConnected
      ensures advertisingStarts == old(advertisingStarts) + (if !deviceConnected && old(oldDeviceConnected) then 1 else 0)
      ensures deviceConnected && loopTest ==>
        counter == old(counter) + 1 && notifications == old(notifications) + 1 &&
        txCharacteristicValue == TestPayload(old(counter))
      ensures !(deviceConnected && loopTest) ==>
        counter == old(counter) && notifications == old(notifications) &&
        txCharacteristicValue == old(txCharacteristicValue) && text[..] == old(text[..])
    {
      if deviceConnected {
        if loopTest {
          SendTest();
        }
      }
      if !deviceConnected && oldDeviceConnected {
        advertisingStarts := advertisingStarts + 1;
        oldDeviceConnected := deviceConnected;
      }
      if deviceConnected && !oldDeviceConnected {
        oldDeviceConnected := deviceConnected;
      }
    }
  }

  /** A client of the bridge: a peer writes "ab\ncd" and disconnects. The
      bytes outlive the connection and `Available` reports nothing, yet
      reading up to '\n' still yields "ab", then the partial line "cd",
      and the loop restarts advertising once for the disconnect. */
  method ReadAfterDisconnect() returns (avail: bool, first: seq<Byte>, second: seq<Byte>)
    ensures !avail && first == [0x61, 0x62] && second == [0x63, 0x64]
  {
    var serial := new BLESerial();
    serial.Begin();
    serial.OnConnect();
    serial.Loop();
    assert serial.receiveQueue == [] && serial.advertisingStarts == 1;
    var line: seq<Byte>, rest: seq<Byte> := [0x61, 0x62], [0x63, 0x64];
    serial.OnWrite(line + [0x0A] + rest);
    assert serial.receiveQueue == line + [0x0A] + rest;
    serial.OnDisconnect();
    serial.Loop();
    serial.Loop();
    assert serial.advertisingStarts == 2;
    ReadUntilAtDelimiter(line, rest, 0x0A);
    ReadUntilNoDelimiter(rest, 0x0A);
    avail := serial.Available();
    first := serial.ReadStringUntil(0x0A);
    second := serial.ReadStringUntil(0x0A);
  }
}
