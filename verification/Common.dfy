/** Small datatypes shared by every module of the model. */
module Common {

  datatype Option<+T> = None | Some(value: T)

  /** internal/driver/state.go: the five availability states a driver hash may hold. */
  datatype DriverState = OFFLINE | AVAILABLE | RESERVED | ON_TRIP | PAUSED
}
