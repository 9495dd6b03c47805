# LFLib core in Dafny

LFLib is a helper library for lab scripts. It offers a threaded serial port
(`sPort`), small list and time utilities, and file-name helpers for saving
measurements. This project models the parts of it that hold logic of their own:

- **The `sPort` receive buffer** (`serial_port.dfy`). It is a class `SPort` with
  the buffer fields `content`, `size`, `disconnected` and `terminator`.
  - `readStoreBuffer` stores a received chunk only when the whole chunk fits.
  - `clearBuffer` empties the buffer, or keeps only what follows the last
    line feed.
  - `readB` takes bytes from the front.
  - `readL` takes the first line and decodes it as UTF-8.
  - `write` and `writeL` hand bytes to the device, or log a warning.
  - The device is modelled by a log `sent` of the bytes it was handed.
    Whether its `write` raises `OSError` is a parameter.
  - The printed warnings are a log `warnings`.
  - Calls of the `handleData` callback are counted in `dataEvents`.
- **UTF-8** (`utf8.dfy`): `str.encode()` on strings of Unicode scalar values
  and a strict `bytes.decode()`, as defined in Table 3-7 of the Unicode
  Standard. Both round trips are proved.
  Together with `NewlineByteIffNewlineChar`, they show that a line that holds
  no line feed, written with `writeL`, is read back unchanged by `readL`
  (`SerialPort.LineRoundTrip`).
- **`timeToSeconds`** (`time_parse.dfy`): reads "mm:ss" or "h:mm:ss" as a
  number of seconds. It is proved to invert the rendering of a time.
- **`reorder` and `removeFromLists`** (`list_helpers.dfy`).
  - `reorder` works in place on an array.
  - `removeFromLists` works on list objects shared by reference. Its two loops
    are proved against a filtering specification, `Filter`.
- **`fileNameFromPath`** and the numbering step of **`savePath`**
  (`file_names.dfy`).
- **Python semantics** (`py.dfy`): negative indices, clamped slices,
  `index`/`rindex` with their `ValueError`, and `str(n)`/`int(s)` on digit
  strings.

Other behaviour of note:

- `readB` and `readL` return the string "not enough data" when they have
  nothing to return. The model keeps that case apart from the data, as
  `NotEnoughData` and `NoLine`. In the source, a received line whose text is
  "not enough data" cannot be told apart from that case.
- `readL` returns the placeholder string "Read data isn't a string" when a
  line is not valid UTF-8. The model keeps that case apart as `NotAString`. In
  the source, a received line whose text is "Read data isn't a string" cannot
  be told apart from a decoding failure.
- `readL` and `clearBuffer(True)` always look for the byte `\n`. The
  `terminatorV` given to the constructor is stored and never read.
- `savePath` cuts the number field of every file found using the extension
  length of the first file (`numCrop`, `LFLib.py:429`). `NextNumber` and
  `SavePath` keep that rule.

## Model

| member | source | states |
|---|---|---|
| SerialPort.SPort.constructor | LFLib.py:755-758 | the buffer starts empty, with capacity 4096 and not disconnected, and keeps `terminatorV` |
| SerialPort.SPort.Start | LFLib.py:761-772 | the capacity becomes `maxSize`, 4096 by default |
| SerialPort.SPort.ReadStoreBuffer | LFLib.py:775-779 | a chunk that fits is appended whole; one that does not is dropped whole; `handleData` is called once either way; the capacity bound is preserved |
| SerialPort.SPort.ClearBuffer | LFLib.py:782-796 | without `clearLine` the buffer becomes empty; with it, the buffer keeps exactly what follows the last line feed (all of it if there is none) and then holds no line feed |
| SerialPort.AfterLastLineFeed | LFLib.py:787-793 | what `clearBuffer(True)` keeps is a suffix with no line feed, directly preceded by one when the buffer had one, and the whole buffer when it had none |
| SerialPort.SPort.Disconnected | LFLib.py:830-831 | returns the disconnected flag |
| SerialPort.SPort.ReadB | LFLib.py:835-841 | with fewer than `n` bytes buffered, reports it and takes nothing; otherwise returns exactly `n` bytes which, put back in front of the buffer, restore it |
| SerialPort.SPort.ReadL | LFLib.py:845-856 | with no line feed buffered, reports it and takes nothing; otherwise the old buffer is the bytes before the first line feed, that line feed, then the new buffer; the result is those bytes decoded; a returned line never holds `\n` |
| SerialPort.DecodedLine | LFLib.py:850-853 | the placeholder is returned exactly when the bytes are not valid UTF-8; a decoded line encodes back to the same bytes |
| SerialPort.SPort.Write | LFLib.py:859-866 | a disconnected port sends nothing and warns; a failing device write sends nothing and warns; otherwise exactly `data` is appended to what was sent |
| SerialPort.SPort.WriteL | LFLib.py:869-876 | like `write`, with the UTF-8 encoding of `s` followed by one line feed byte |
| SerialPort.LineRoundTrip | LFLib.py:845-856 | the bytes `writeL(s)` sends, followed by anything, have their first line feed right after `s`, and that line decodes to `s` when `s` holds no `\n` |
| SerialPort.ReadLineExample | LFLib.py:775-856 | storing `b"ab\ncd"` and calling `readL` returns "ab" and leaves `b"cd"` |
| Utf8.EncodeChar | LFLib.py:874 | one character becomes one to four bytes; it becomes one byte, equal to its code, exactly when it is ASCII; otherwise all its bytes are at least 0x80 |
| Utf8.Encode | LFLib.py:874 | `str.encode()` gives between one and four bytes per character |
| Utf8.Decode | LFLib.py:851-853 | strict `bytes.decode()`, `None` standing for the `UnicodeDecodeError` case; a decoded string is no longer than its bytes (its round trips are `DecodeEncode` and `EncodeDecode`) |
| Utf8.DecodeEncode | LFLib.py:851 | decoding the encoding of any string gives the string back |
| Utf8.EncodeDecode | LFLib.py:851 | bytes that decode encode back to the same bytes |
| Utf8.EncodeAppend | LFLib.py:874 | encoding `s + '\n'` is encoding `s`, then encoding `'\n'` |
| Utf8.NewlineByteIffNewlineChar | LFLib.py:849 | the encoding of a string holds the byte 10 exactly when the string holds `\n` |
| TimeParse.TimeToSeconds | LFLib.py:147-171 | a non-string gives `None`; a string gives a value exactly when it has ':' third from the end and, from six characters on, ':' sixth from the end; the value is the seconds `t[-2:]` (`SecondsField`), plus 60 times the minutes `t[-5:-3]` (`MinutesField`), plus 3600 times the hours `t[:-6]` (`HoursField`) when there are six characters or more |
| TimeParse.ProperForm | LFLib.py:153-161 | `correctForm` holds exactly when the text is its minutes and seconds fields, and from six characters on its hours field, joined by ':' |
| TimeParse.MinSecFields | LFLib.py:155-168 | a rendered "mm:ss" has the proper form, and its fields read back as its minutes and seconds |
| TimeParse.HourMinSecFields | LFLib.py:155-170 | a rendered "h:mm:ss" has the proper form, and its fields read back as its hours, minutes and seconds |
| TimeParse.SecondsOfMinSec | LFLib.py:147-171 | "mm:ss" is read as 60·m + s |
| TimeParse.SecondsOfHourMinSec | LFLib.py:147-171 | "h:mm:ss" is read as 3600·h + 60·m + s |
| ListHelpers.Reorder | LFLib.py:177-199 | with `order` as long as the list and every index in range (negative ones included), `a[i]` becomes the old `a[order[i]]`; otherwise the list is unchanged |
| ListHelpers.ReorderedInverse | LFLib.py:177-199 | reordering by `q` and then by an order `p` that undoes `q` gives the list back |
| ListHelpers.PyList.Pop | LFLib.py:600 | `pop(index)` returns the entry at `index` and removes just that entry |
| ListHelpers.PyList.Remove | LFLib.py:594 | `remove(x)` removes the first occurrence of `x` and nothing else |
| ListHelpers.RemoveFromLists | LFLib.py:575-603 | with no list, or lists of different lengths, nothing changes; otherwise every list keeps exactly its entries at the positions where the first list did not hold `item` |
| ListHelpers.RemoveAll | LFLib.py:592-594 | removing `item` while it occurs leaves the list filtered by itself |
| ListHelpers.RemoveParallel | LFLib.py:595-603 | popping the index of the first `item` from every list, while the first list holds it, filters every list by the first |
| ListHelpers.PopEach | LFLib.py:600-603 | pops `index` from the first list and then from every other list, leaving every list without its entry at `index` |
| ListHelpers.SurvivorsExact | LFLib.py:575-603 | the surviving positions are increasing, and are exactly those where the first list does not hold `item` |
| ListHelpers.FilterPicksSurvivors | LFLib.py:575-603 | every filtered list consists of the entries at the surviving positions, so the lists keep one common length |
| ListHelpers.FilterRemovesItem | LFLib.py:593-596 | afterwards the first list no longer holds `item` |
| ListHelpers.FilterKeepsAll | LFLib.py:593-596 | when the first list does not hold `item`, every list is left as it was |
| ListHelpers.FilterSplit | LFLib.py:596-603 | filtering a concatenation filters its two parts separately |
| FileNames.FileNameFromPathAsWritten | LFLib.py:396-413 | as written: `None` exactly for a non-string |
| FileNames.KeepExtensionAsWritten | LFLib.py:400-413 | as written: `cropExt=False` always gives "" |
| FileNames.NoExtensionAsWritten | LFLib.py:402-413 | as written: a path without '.' gives "" |
| FileNames.DotInDirectoryAsWritten | LFLib.py:402-413 | as written: a '.' only in the directory part, as in "./data", gives "" |
| FileNames.AsWrittenAgreesWithExtension | LFLib.py:396-413 | when the last '.' comes after the last '/', the code as written gives the intended name |
| FileNames.BaseName | LFLib.py:408-410 | the part after the last '/' holds no '/', is a suffix of the path, and is preceded by '/' when shorter than the path |
| FileNames.FileNameFromPath | LFLib.py:396-413 | the intended name: `None` exactly for a non-string, otherwise a prefix of the base name with no '/'; the whole base name without `cropExt` or without a '.' |
| FileNames.FileNameKeepsExtension | LFLib.py:396-413 | `dir/name` without `cropExt` gives `name` |
| FileNames.FileNameWithoutExtension | LFLib.py:396-413 | `dir/name` with no '.' in `name` gives `name` |
| FileNames.FileNameCropsExtension | LFLib.py:396-413 | `dir/name.ext` gives `name` |
| FileNames.SavePath | LFLib.py:420-437 | the path is `dir + name + " "` followed by one more than the largest number in the found files' number fields `f[numStart:-numCrop]` (`NumberField`, with `numCrop` the first file's `ExtensionLength`), 1 when there is none |
| FileNames.MaxNumber | LFLib.py:430-435 | the `filesMax` loop's result: no numbered file has a number above it (it is 0 or some file's number by `MaxNumberIsAttained`) |
| FileNames.MaxNumberIsAttained | LFLib.py:424-435 | the maximum is 0 or the number of one of the files |
| FileNames.NextNumber | LFLib.py:424-437 | the number `savePath` hands out (`FilesMax + 1`, with every number field `f[numStart:-numCrop]` cut by the first file's extension length `numCrop`) is at least 1 and larger than that of every numbered file found |
| Py.Slice | LFLib.py:413 | `s[i:j]` is `s` between the clamped bounds, or empty when they cross |
| Py.RIndex | LFLib.py:405 | `rindex` gives the last position of `x`, and `None` (the `ValueError`) exactly when `x` is absent |
| Py.Index | LFLib.py:598 | `index` gives the first position of `x`, and `None` exactly when `x` is absent |
| Py.IsDigits | LFLib.py:432 | `isdigit()` on ASCII digits only (see the `TimeParse.TimeToSeconds:` and `FileNames.SavePath:` lines under Left out): a non-empty string of ASCII digits; `str(n)` is one (`Py.Digits`), and one without a leading zero is `str` of its own `int` (`Py.DigitsOfParseDigits`) |
| Py.ParseDigits | LFLib.py:167-170 | `int(...)` on ASCII digits only (see the `TimeParse.TimeToSeconds:` and `FileNames.SavePath:` lines under Left out); the value is 0 exactly when every digit is '0' |
| Py.Digits | LFLib.py:437 | `str(n)` is a non-empty string of digits without a leading zero |
| Py.DigitsOfParseDigits | LFLib.py:432-437 | `str(int(s)) == s` for a digit string without a leading zero |
| Py.ParseDigitsOfDigits | LFLib.py:437 | `int(str(n)) == n` |

## Left out

- The serial device and the reader thread are not modelled: `serPort`, `ReaderThread`, `connection_made`, `data_received`, `reopen` and `connection_lost`. The received data arrives as the argument of `ReadStoreBuffer`, and `disconnected` is a field nobody in the model sets.
- `reopen` calls an undefined `Serial`, and `connection_lost` sets `disconnected = True` only after `reopen` returns. Both depend on the device and the Tk loop, which are not modelled.
- The `handleData` callback, the Tk calls `flush_events` and `update_idletasks`, and the output of `pln` are not modelled. A callback call is only counted, and a warning is only logged.
- `Buffer` is a class attribute shared by every `sPort` (`LFLib.py:738-746`). The model has one buffer per `SPort` object, which matches the source's stated single-port use.
- Plotting, GUI, CSV, `glob` and the other helpers of LFLib.py are not part of this model. For `savePath`, the list `glob` returns is a parameter.
- SerialPort.SPort.WriteL: strings holding a lone surrogate are not modelled, since a Dafny `char` cannot hold one. For such a string, `encode()` in the source raises `UnicodeEncodeError`, which `writeL` does not catch and passes to its caller.
- Utf8.Encode: strings holding a lone surrogate are not modelled, since a Dafny `char` cannot hold one. For them Python's `str.encode()` raises `UnicodeEncodeError`.
- SerialPort.DecodedLine: `NotAString` is a separate value, while the source returns the plain string "Read data isn't a string", which a caller cannot tell apart from a received line with that text.
- SerialPort.SPort.ReadL: the `forceWait` parameter is unused in the source and is left out.
- SerialPort.SPort.ReadB: `n` is a natural number. With a negative `bytes`, Python would slice from the end; that case is not modelled.
- SerialPort.SPort.Write: a device write that raises `OSError` is taken to have written nothing.
- TimeParse.TimeToSeconds: requires at least three characters, where `t[-3]` would raise `IndexError`. Fields that `int()` rejects would raise `ValueError`, so the number fields are required to be ASCII digits. Python's `int()` also accepts signs, spaces, underscores and non-ASCII digits, and those inputs are not modelled.
- ListHelpers.Reorder: the checks that `a` and `order` are lists, and the `TypeError` for non-integer entries, are not modelled. The types make them impossible.
- ListHelpers.RemoveFromLists: requires the lists to be distinct objects. The same list passed twice (aliasing) is not modelled. The `tuple`/`list` type checks are not modelled either. All lists share one element type `T`, where the source's parallel lists may hold other types than the key list; the behaviour does not depend on it, since only the first list is compared with `item`.
- FileNames.SavePath: requires a '.' in the first file found, which the `glob` pattern `" *.*"` guarantees. `isdigit()` and `int()` are restricted to ASCII digits.

## Findings

| source | as written | input that shows it | evidently intended | confidence | as-written member | corrected member |
|---|---|---|---|---|---|---|
| LFLib.py:400-413 | with `cropExt=False`, `cropExtension` stays 0, and `path[cropDirectory:-0]` ends at position 0 | `fileNameFromPath("dir/a.txt", False)` gives "" | "a.txt" | not executed | FileNames.KeepExtensionAsWritten | FileNames.FileNameKeepsExtension |
| LFLib.py:402-413 | a path without '.' leaves `cropExtension` at 0, so the slice is again empty | `fileNameFromPath("dir/data")` gives "" | "data" | not executed | FileNames.NoExtensionAsWritten | FileNames.FileNameWithoutExtension |
| LFLib.py:405-413 | `rindex(".")` also finds a '.' in the directory part, so the slice ends before it starts | `fileNameFromPath("./data")` gives "" | "data" | not executed | FileNames.DotInDirectoryAsWritten | FileNames.FileNameWithoutExtension |
