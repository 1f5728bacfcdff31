/** A button entity of the heat pump: a fixed command, address and value to
    write, and a pressed flag that is consumed by reading it
    (src/ivt_rego6xx_ctrl/button/IVTRego6xxButton.h). */
module IVTRego6xxButtonEntity {
  import opened Bytes

  class IVTRego6xxButton {
    /** Command id sent to the heat pump when pressed. */
    const cmdId: uint8
    /** Register address written. */
    const addr: uint16
    /** Value written. */
    const value: uint16
    var pressed: bool

    /** The command, address and value are kept as given; not pressed. */
    constructor (cmdId: uint8, addr: uint16, value: uint16)
      ensures this.cmdId == cmdId && this.addr == addr && this.value == value
      ensures !pressed
    {
      this.cmdId := cmdId;
      this.addr := addr;
      this.value := value;
      pressed := false;
    }

    /** Reports whether the button was pressed since the last call and
        resets the flag. */
    method IsPressed() returns (wasPressed: bool)
      modifies this`pressed
      ensures wasPressed == old(pressed) && !pressed
    {
      wasPressed := pressed;
      pressed := false;
    }

    /** A press by the user. */
    method PressAction()
      modifies this`pressed
      ensures pressed
    {
      pressed := true;
    }
  }

  /** Any number of presses (at least one) between two reads is reported
      exactly once: the first read says pressed, the next one does not. */
  method PressesAreReportedOnce(button: IVTRego6xxButton, presses: nat) returns (first: bool, second: bool)
    requires presses >= 1
    modifies button
    ensures first && !second
  {
    var n := 0;
    while n < presses
      invariant 0 <= n <= presses
      invariant n > 0 ==> button.pressed
    {
      button.PressAction();
      n := n + 1;
    }
    first := button.IsPressed();
    second := button.IsPressed();
  }
}
