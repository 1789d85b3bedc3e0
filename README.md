# mat: the image listing step

`mat` asks systemd-machined, over D-Bus, for the running machines and for the
known images, and prints one line per image. A line is
`name type ro size`, with `ro` printed as `true` or `false` and the size as a
decimal number. The line is wrapped in the ANSI pair `ESC[32m` … `ESC[m`
(green) when a machine of the same name is running. Images whose name starts with
`.` are hidden and print nothing. A D-Bus call that fails counts as an empty
listing, and the program still ends successfully unless writing to standard output fails.

The model has three modules:

- `Records` (`records.dfy`): the `Machine` and `Image` records, the raw reply
  tuples of ListMachines and ListImages, `u64`, and the `Result` of a D-Bus call.
- `Format` (`format.dfy`): the marker pair and the Display forms of `bool` and
  `u64`. It also gives the text of a line, and `ParseTail`, which reads the
  marker, the read-only flag and the size back out of a line.
- `Listing` (`listing.dfy`): `RunningTable` and `Listing`, the functions that
  say what the two loops compute, the lemmas about them, and `ListStep`, the
  imperative body of `main`. The `running` table is a `map` updated in a loop,
  and the printed lines are a `seq<string>` appended to in a second loop that
  skips hidden images with `continue`.

The two D-Bus calls are inputs of `ListStep`, each an `Ok` reply or an `Err`.
`println!` becomes appending the line, without its newline, to `out`.

## Model

| member | source | states |
|---|---|---|
| `Listing.ListStep` | src/mat.rs:32-52 | `running` is the table built from the machine reply, or empty when that call failed. `out` is the listing of the image reply, or empty when that call failed. The result is always `Ok(())`. |
| `Listing.RunningTableKeys` | src/mat.rs:34-39 | the names in the table are exactly the names in the machine reply |
| `Listing.RunningTableLastWins` | src/mat.rs:38 | a name listed several times maps to the machine of its last entry, because a later insert overwrites an earlier one |
| `Listing.Visible` | src/mat.rs:41-46 | the kept images are never more than the reply's, and none of them is hidden |
| `Listing.VisibleAppend` | src/mat.rs:41-46 | filtering keeps the reply order: filtering a concatenation is concatenating the filtered parts |
| `Listing.ListingAppend` | src/mat.rs:41-49 | the lines of a concatenated reply are the lines of each part in turn, with no sorting and no deduplication |
| `Listing.HiddenImageHasNoLine` | src/mat.rs:44-47 | removing a hidden image from the reply leaves the output unchanged, whatever the table of running machines holds |
| `Listing.ShownImageHasOneLine` | src/mat.rs:41-49 | an image that is not hidden gives exactly one line, placed after the lines of the images before it and before the lines of the images after it |
| `Listing.MarkedIffMachineListed` | src/mat.rs:34-47 | a line ends with the reset escape exactly when the machine reply named a machine like its image, and it then starts with the green escape |
| `Listing.NoMarkerWithoutMachines` | src/mat.rs:32-34 | with an empty table, which is what a failed ListMachines leaves, no line carries the marker |
| `Listing.ListingIgnoresUnshownFields` | src/mat.rs:43-48 | the lines depend only on which names the table holds and on each image's name, type, read-only flag and size |
| `Listing.OutputIgnoresUnshownFields` | src/mat.rs:36-48 | a machine's class, id and path, and an image's timestamps and path, never change the output |
| `Format.LineMarkedIffRunning` | src/mat.rs:47-48 | a line ends with `ESC[m` exactly when its image is running, and it then starts with `ESC[32m`. Otherwise it is `name type ro size` with no escape added |
| `Format.LineTailRoundTrip` | src/mat.rs:47-48 | the running marker, the read-only flag and the size can be read back from every line |
| `Format.Decimal` | src/mat.rs:48 | a displayed `u64` is a non-empty string of decimal digits, with no leading zero, and 0 is shown as `0` |
| `Format.DecimalRoundTrip` | src/mat.rs:48 | reading the decimal text of a number gives back that number |
| `Listing.VisibleKeepsShown` | src/mat.rs:41-46 | every image of the reply whose name does not start with `.` is kept by the filter |
| `Listing.RunningTable` | src/mat.rs:34-39 | plain definition with no contract of its own: the map left by inserting every machine under its name, in reply order. Its properties are stated by `Listing.RunningTableKeys` and `Listing.RunningTableLastWins` |
| `Listing.IsHidden` | src/mat.rs:44 | plain definition with no contract of its own: the name starts with `.`. Its use is stated by `Listing.HiddenImageHasNoLine`, `Listing.ShownImageHasOneLine` and `Listing.VisibleKeepsShown` |
| `Listing.Listing` | src/mat.rs:41-49 | plain definition with no contract of its own: the line of each kept image, in order. Its properties are stated by `Listing.ListingAppend`, `Listing.HiddenImageHasNoLine`, `Listing.ShownImageHasOneLine` and `Listing.ListingIgnoresUnshownFields` |
| `Listing.ImageLine` | src/mat.rs:47 | plain definition with no contract of its own: the line of an image, coloured when the table holds its name. Its property is stated by `Listing.MarkedIffMachineListed` |
| `Format.Line` | src/mat.rs:48 | plain definition with no contract of its own: the text `println!` writes. Its properties are stated by `Format.LineMarkedIffRunning` and `Format.LineTailRoundTrip` |
| `Format.Marker` | src/mat.rs:47 | plain definition with no contract of its own: the escape pair, green/reset or empty. Its property is stated by `Format.LineMarkedIffRunning` |
| `Format.BoolText` | src/mat.rs:48 | plain definition with no contract of its own: `true` or `false`. It is read back by `Format.LineTailRoundTrip` |
| `Records.MachineOf` | src/mat.rs:36 | plain definition with no contract of its own: the machine record built from a reply tuple. `Listing.RunningTableLastWins` states which one the table keeps |
| `Records.ImageOf` | src/mat.rs:43 | plain definition with no contract of its own: the image record built from a reply tuple. `Listing.ShownImageHasOneLine` and `Listing.VisibleKeepsShown` state how it is used |

`Format.ParseTail`, `Format.LastSpace`, `Format.LastSpaceBeforeDigits` and
`Format.FlagWord` model nothing in the program: they are the helpers of
`Format.LineTailRoundTrip`, which reads a printed line back.

## Left out

- Connecting to the system bus (src/mat.rs:28) and its `?` error return, plus the proxy with its 5000 ms timeout (src/mat.rs:30). They are I/O. The model starts once the proxy exists.
- The generated `machined` D-Bus bindings, which are not part of this model. Their two replies are inputs of `ListStep`.
- Terminal output: `println!` is modelled as appending one string per line. The ANSI escapes are only their literal characters, and the newline is not part of the line. The model's appends cannot fail, whereas `println!` panics when a write to standard output fails (a closed pipe, say), and `main` then never returns `Ok(())`.
- D-Bus object paths are plain strings. The model does not enforce the object-path syntax.
- This version of mat only prints a plain list: it has no sorting by name, size units, name truncation, cursor, surfaces, borders, shadows, dialogs or start/stop actions. Lines keep the reply order and sizes are plain byte counts.
