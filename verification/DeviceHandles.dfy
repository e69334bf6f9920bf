module DeviceHandles {
  import opened Recency

  /** The handle counter both kinds of device objects draw from; zero is the null handle. */
  class Handles {
    var next: Handle

    constructor ()
      ensures next == 1
    {
      next := 1;
    }
  }
}
