/**
 * The processed-file counter both plugins share between the scanning thread
 * and the status bar. Its lock and the status message are not modelled; the
 * scan that increments it is sequential.
 */
module Progress {

  class Counter {
    var current: nat

    constructor ()
      ensures current == 0
    {
      current := 0;
    }

    /** `Counter.increment`: one more file processed. */
    method Increment()
      modifies this
      ensures current == old(current) + 1
    {
      current := current + 1;
    }
  }
}
