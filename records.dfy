/**
 * The records the listing step works on: a running machine and an image, as
 * systemd-machined reports them over D-Bus, the raw reply tuples, and the
 * outcome of a D-Bus call.
 */
module Records {

  /** An unsigned 64-bit integer, the width of the image timestamps and size. */
  newtype u64 = x: int | 0 <= x < 0x1_0000_0000_0000_0000

  /** A D-Bus object path, kept as its text. */
  type ObjectPath = string

  /** The error a failed D-Bus call reports. */
  datatype DBusError = DBusError(name: string, message: string)

  /** An optional value. */
  datatype Option<+T> = None | Some(value: T)

  /** The outcome of a D-Bus call. */
  datatype Result<+T, +E> = Ok(value: T) | Err(error: E)

  /** One entry of ListMachines: (name, class, id, path). */
  type MachineTuple = (string, string, string, ObjectPath)

  /** One entry of ListImages: (name, type, read-only, created, modified, size, path). */
  type ImageTuple = (string, string, bool, u64, u64, u64, ObjectPath)

  /** A running machine. */
  datatype Machine = Machine(name: string, machineClass: string, id: string, path: ObjectPath)

  /** An image known to the machine manager. */
  datatype Image = Image(name: string, t: string, ro: bool, tCreated: u64, tModified: u64,
                         size: u64, path: ObjectPath)

  /** The record built from one ListMachines entry, field by field. */
  function MachineOf(e: MachineTuple): Machine
  {
    Machine(e.0, e.1, e.2, e.3)
  }

  /** The record built from one ListImages entry, field by field. */
  function ImageOf(e: ImageTuple): Image
  {
    Image(e.0, e.1, e.2, e.3, e.4, e.5, e.6)
  }
}
