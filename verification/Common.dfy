/** Types shared by the models of the daemon, the configuration and the parsers. */
module Common {

  datatype Option<+T> = None | Some(value: T)

  datatype Result<+T, +E> = Ok(value: T) | Err(error: E)

  /** A sysfs path. */
  type Path = string

  /** A configured fan: `device` is hwmon_device, `chip` is chip_name. */
  datatype Fan = Fan(name: string, kind: string, pwm: Path, rpm: Path, device: string, chip: string)

  datatype Sensor = Sensor(name: string, kind: string, path: Path, device: string, chip: string)

  lemma ConcatAssociates<T>(a: seq<T>, b: seq<T>, c: seq<T>)
    ensures (a + b) + c == a + (b + c)
  {
  }
}
