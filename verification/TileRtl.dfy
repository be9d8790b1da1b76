/** The controller and the interface of one chip as clocked objects, wired together. */
module TileRtl {
  import opened Sram
  import opened Controller
  import opened SerialLink
  import opened Tile
  import L = LinkRtl
  import R = ControllerRtl

  class ChipTile {
    const controller: R.CacheController
    const face: L.CacheInterface

    ghost function Parts(): set<object> {
      controller.Parts() + face.Parts()
    }

    ghost predicate Valid()
      reads Parts()
    {
      controller.Valid() && face.Valid() && controller.Parts() !! face.Parts()
    }

    constructor (pins: L.Pins, powerByte: bv8, powerRow: Row)
      requires pins.Ok()
      ensures Valid() && fresh(Parts()) && face.pins == pins
    {
      controller := new R.CacheController(powerByte, powerRow);
      face := new L.CacheInterface(pins);
    }

    /** One rising edge of both, each driven by the other's outputs before it. */
    method Posedge(i: TileIn, req: bool, serial: Bits)
      requires Valid()
      modifies Parts()
      ensures Valid()
      ensures StackOk(old(controller.State()).mem) && face.pins.Ok()
      ensures var chip, was := old(controller.State()), old(face.State());
              var e := EnvOf(was.bus, was.snoop, was.tx.sending, i);
              var inputs := FaceOf(chip.arb, chip.cpu, chip.snp, e).(req := req, serial := serial);
              && controller.State() == RawNext(chip, e)
              && face.State() == L.InterfaceNext(was, inputs, face.pins.up)
    {
      var e := EnvOf(face.busPipe.State(), face.snoopPipe.State(), face.tserializer.sending, i);
      var inputs := FaceOf(controller.arbiter.State(), controller.cpu.State(), controller.snp.State(), e);
      controller.Posedge(e);
      face.Posedge(inputs.(req := req, serial := serial));
    }
  }
}
