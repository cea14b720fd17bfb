/** From opening the device to any number of operations on it: the opening state machine hands its geometry and its
    USB traffic to the scan driver. */
module Session {
  import opened Bytes
  import opened Wire
  import Init = BringupSpec
  import InitTheory = BringupTheory
  import Scan = ScanSpec
  import ScanTheory
  import ScanWire
  import Bringup
  import Driver

  /** All traffic of a session: armed, announced, and without a single upload transfer. */
  predicate Disciplined(w: seq<Usb>) {
    forall i :: 0 <= i < |w| ==> ArmedAt(w, i) && AnnouncedAt(w, i) && NoUpload(w[i])
  }

  lemma SessionDiscipline(fw: seq<u8>, opening: seq<Init.Event>, engineOk: bool, useFpn: bool, events: seq<Scan.Event>)
    requires var o := Init.RunFrom(Init.Opening(fw, 0, 0, 0, 0), opening); o.phase.Finished?
    ensures var o := Init.RunFrom(Init.Opening(fw, 0, 0, 0, 0), opening);
            var w := Scan.RunFrom(Scan.Opened(o.width, o.height, engineOk, useFpn, o.wire), events).wire;
            && Disciplined(w) && InitTheory.HANDSHAKE <= w && ScanWire.InRoutine(o.width as int * o.height as int, w, 5)
            && (Sized(w) <==> o.width as int * o.height as int == 5120
                              || forall i :: 0 <= i < |w| ==> !FrameReadAt(w, i))
  {
    hide Init.RunFrom, Init.Opening, Scan.RunFrom, Scan.Opened;
    InitTheory.OpeningIsHandshake(fw, 0, 0, 0, 0, opening);
    var o := Init.RunFrom(Init.Opening(fw, 0, 0, 0, 0), opening);
    assert o.wire == InitTheory.HANDSHAKE;
    InitTheory.HandshakeDisciplined(o.width as int * o.height as int);
    ScanWire.WireDiscipline(o.width, o.height, engineOk, useFpn, o.wire, events);
    ScanWire.CaptureSequence(o.width, o.height, engineOk, useFpn, o.wire, events);
  }

  /** Whatever the sensor reports on opening, the reads of all sessions have the announced length exactly when it
      reports 5120 pixels. */
  lemma SessionSized(fw: seq<u8>, opening: seq<Init.Event>, engineOk: bool, useFpn: bool)
    requires var o := Init.RunFrom(Init.Opening(fw, 0, 0, 0, 0), opening); o.phase.Finished?
    ensures var o := Init.RunFrom(Init.Opening(fw, 0, 0, 0, 0), opening);
            var s := Scan.Opened(o.width, o.height, engineOk, useFpn, o.wire);
            (forall events :: Sized(Scan.RunFrom(s, events).wire))
            <==> o.width as int * o.height as int == 5120
  {
    hide Init.RunFrom, Init.Opening, Scan.RunFrom, Scan.Opened;
    InitTheory.OpeningIsHandshake(fw, 0, 0, 0, 0, opening);
    var o := Init.RunFrom(Init.Opening(fw, 0, 0, 0, 0), opening);
    InitTheory.HandshakeDisciplined(o.width as int * o.height as int);
    assert Sized(InitTheory.HANDSHAKE);
    ScanWire.SizedExactlyFor5120(o.width, o.height, engineOk, useFpn, o.wire);
  }

  /** Open a device and let any events happen to it. Its traffic is disciplined whether or not it opened; once open it
      has sent the handshake and then nothing but captures in their order; its reads have the announced length
      exactly when the sensor reported 5120 pixels or no frame was read; and its log of acts keeps to the protocol of
      ScanTheory. */
  method OpenAndUse(fw: seq<u8>, opening: seq<Init.Event>, engineOk: bool, useFpn: bool, events: seq<Scan.Event>)
    returns (open: bool, width: u8, height: u8, wire: seq<Usb>, log: seq<Scan.Act>)
    ensures Disciplined(wire)
    ensures open ==> InitTheory.HANDSHAKE <= wire && ScanWire.InRoutine(width as int * height as int, wire, 5)
    ensures open ==> (Sized(wire) <==> width as int * height as int == 5120
                                         || forall i :: 0 <= i < |wire| ==> !FrameReadAt(wire, i))
    ensures !open ==> wire <= InitTheory.HANDSHAKE && log == []
    ensures ScanTheory.LogOk(ScanTheory.Setup(width as int * height as int, engineOk), log)
  {
    hide Init.RunFrom, Init.Enter, Scan.RunFrom, Scan.Opened, Disciplined, ScanTheory.Inv;
    var opener := new Bringup.Opener(fw);
    opener.DevOpen();
    assert opener.View() == Init.Opening(fw, 0, 0, 0, 0);
    opener.Run(opening);
    InitTheory.OpeningIsHandshake(fw, 0, 0, 0, 0, opening);
    open, width, height, wire, log := opener.phase.Finished?, opener.sensorWidth, opener.sensorHeight, opener.wire, [];
    if open {
      var driver := new Driver.Ft9201(width, height, engineOk, useFpn, wire);
      driver.Run(events);
      SessionDiscipline(fw, opening, engineOk, useFpn, events);
      Kept(width, height, engineOk, useFpn, wire, events);
      wire, log := driver.wire, driver.log;
    } else {
      PrefixDisciplined(wire);
    }
  }

  lemma Kept(width: u8, height: u8, engineOk: bool, useFpn: bool, opening: seq<Usb>, events: seq<Scan.Event>)
    ensures ScanTheory.LogOk(ScanTheory.Setup(width as int * height as int, engineOk),
                             Scan.RunFrom(Scan.Opened(width, height, engineOk, useFpn, opening), events).log)
  {
    hide Scan.RunFrom;
    var s := Scan.Opened(width, height, engineOk, useFpn, opening);
    ScanTheory.RunOk(s, events);
    ScanWire.SizeKept(s, events);
    ScanWire.EngineKept(s, events);
  }

  lemma PrefixDisciplined(w: seq<Usb>)
    requires w <= InitTheory.HANDSHAKE
    ensures Disciplined(w)
  {
    InitTheory.HandshakeDisciplined(0);
    forall i | 0 <= i < |w| ensures ArmedAt(w, i) && AnnouncedAt(w, i) && NoUpload(w[i]) {
      assert ArmedAt(InitTheory.HANDSHAKE, i) && AnnouncedAt(InitTheory.HANDSHAKE, i);
    }
  }
}
