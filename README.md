# Stress labels from recording file names

This project models the labelling step of `extract_data.py`. The script reads a table of acoustic features with one row per recording. It gives each row a binary stress label taken from the recording's file name, drops the rows that get no label, and casts the label column to integers.

The label comes from `get_label`. It splits the file name on `'-'` and reads the third field with Python's `int()`. Emotion codes 4 to 8 give 1 ("stressed") and codes 1 to 3 give 0 ("neutral"). Any other integer gives `None`. A name with fewer than three fields (`IndexError`) or a third field that is not an integer literal (`ValueError`) also gives `None`.

The modules:

- `Wrappers`: `Option` and `Result`.
- `PyStr`: `str.split` with a one-character separator, and `str.join` as its inverse.
- `PyInt`: `int()` on a `str` in base 10, as CPython 3.12 does it.
  - Surrounding whitespace is allowed, including the non-ASCII characters `str.isspace()` accepts. The ASCII separators 0x1C-0x1F are not accepted.
  - One optional sign.
  - Decimal digits, both ASCII and those of the 67 other Unicode digit blocks.
  - Single underscores between digits.
  - At most 4300 digits.
- `EmotionLabel`: `get_label` and what decides its result.
- `LabelTable`: the DataFrame as a class. Lines 55 and 56 reassign its `rows` field in place; line 57 returns the cast table.
  - The steps are proved against functions on the rows.
  - The whole step is proved to keep exactly the labelled records, in file order, each with label 0 or 1.

`int()` accepts more than plain ASCII digits: non-ASCII whitespace and digits, a `+`, underscores between digits. The model follows the interpreter's behaviour on each of these.

## Model

| member | source | states |
|---|---|---|
| EmotionLabel.GetLabel | extract_data.py:11-22 | get_label is total on strings and its result is always None, 0 or 1 |
| EmotionLabel.EmotionCode | extract_data.py:13 | `int(filename.split('-')[2])` gives an error or a code; a code is never negative, because the field cannot hold '-' |
| EmotionLabel.LabelOfCode | extract_data.py:15-20 | the label is 1 exactly for codes 4 to 8, 0 exactly for codes 1 to 3, and None exactly for every other integer |
| EmotionLabel.ThirdFieldOf | extract_data.py:13 | a name of the form a-b-t followed by nothing or by '-' and more splits into at least three fields, the third being t |
| EmotionLabel.LabelFromThirdField | extract_data.py:13-22 | the label is decided by int() of the third field: 1 for 4..8, 0 for 1..3, None for other integers, and a caught ValueError (None) when int() rejects the field |
| EmotionLabel.OnlyThirdFieldMatters | extract_data.py:13 | two names with the same third field have the same code and the same label, whatever their other fields and whatever follows the third |
| EmotionLabel.TooFewFields | extract_data.py:13-22 | the IndexError happens exactly when the name has fewer than two '-'; it is caught and the label is None |
| EmotionLabel.HasSomeThirdField | extract_data.py:13 | every name with at least two '-' has a third field followed by nothing or by further fields, so the third-field lemmas and TooFewFields together cover every name |
| EmotionLabel.NonIntegerThirdField | extract_data.py:13-22 | a third field holding any character other than whitespace, a digit, '+' or '_' raises ValueError, which is caught: None |
| EmotionLabel.DigitlessThirdField | extract_data.py:13-22 | a third field without a digit, the empty field included, raises ValueError, which is caught: None |
| EmotionLabel.ExtensionStaysInThirdField | extract_data.py:13-22 | with exactly three fields the third keeps the ".wav" extension, so int() rejects it and the label is None |
| EmotionLabel.LabelOfWrittenCode | extract_data.py:13-20 | a code written with surrounding whitespace, a '+' or leading zeros labels the file like the bare number: 1 for 4..8, 0 for 1..3, None otherwise |
| EmotionLabel.LabelOfDigits | extract_data.py:13-20 | a third field of at most 4300 digits is the code those digits denote, and the label is that code's label |
| EmotionLabel.OverlongCode | extract_data.py:13-22 | a third field of more than 4300 digits raises ValueError under int()'s digit limit, which is caught: None |
| EmotionLabel.StressedExample | extract_data.py:13-16 | "03-01-06-01-02-01-12.wav" is labelled 1 |
| EmotionLabel.NeutralExample | extract_data.py:13-18 | "03-01-02-01-01-01-01.wav" is labelled 0 |
| EmotionLabel.ThreeFieldExample | extract_data.py:13-22 | "a-b-06.wav" gets no label |
| EmotionLabel.NoFieldExample | extract_data.py:13-22 | "recording.wav" gets no label |
| PyStr.Split | extract_data.py:13 | `split('-')` always yields at least one piece, and no piece holds the separator |
| PyStr.JoinSplit | extract_data.py:13 | joining the pieces with the separator gives back the name |
| PyStr.SplitJoin | extract_data.py:13 | splitting separator-free pieces joined by the separator gives back the pieces |
| PyStr.JoinThree | extract_data.py:13 | joining three or more pieces gives the first three pieces, each followed by the separator, then the remaining pieces led by the separator |
| PyStr.SplitLength | extract_data.py:13 | there is exactly one more piece than there are separators |
| PyStr.SplitWithoutSeparator | extract_data.py:13 | a text without the separator is a single piece |
| PyStr.SplitAfterPiece | extract_data.py:13 | a separator-free prefix followed by the separator is the first piece, and the rest is split on its own |
| PyStr.FirstPiece | extract_data.py:13 | a separator-free text followed by nothing or by the separator is the first piece |
| PyStr.ThirdPiece | extract_data.py:13 | in a sep b sep t, followed by nothing or by sep and more, the third piece is t |
| PyInt.ParseInt | extract_data.py:13 | `int(s)` on a str in base 10: whitespace stripped, one optional sign, a digit run with single underscores between digits, at most 4300 digits, and `None` where Python raises ValueError; its contract states that text without a '-' never gives a negative number |
| PyInt.DigitValue | extract_data.py:13 | every decimal digit has a value below ten, and an ASCII digit has its usual value |
| PyInt.ParsedIsLiteral | extract_data.py:13 | the converse of LiteralParses: every text int() accepts is whitespace, an optional sign, a digit run of at most 4300 digits with single underscores between digits, and whitespace; anything else raises ValueError |
| PyInt.LiteralParses | extract_data.py:13 | int() accepts whitespace, an optional sign and a digit run of at most 4300 digits, and returns the signed value of the digits |
| PyInt.TooManyDigits | extract_data.py:13 | a well-formed literal with more than 4300 digits raises ValueError |
| PyInt.PaddedNumberParses | extract_data.py:13 | round trip: int() of str(n), padded with whitespace, a '+' and leading zeros, is n |
| PyInt.DecimalStringValue | extract_data.py:13 | reading the decimal digits of n gives n back |
| PyInt.LeadingZerosValue | extract_data.py:13 | leading zeros do not change the value of a digit string |
| PyInt.StrippedLiteral | extract_data.py:13 | stripping the whitespace around a signed digit run leaves exactly the sign and the run |
| PyInt.SignedRun | extract_data.py:13 | a sign and a digit run denote the signed value of the digits, and too many digits are rejected |
| PyInt.DecimalRun | extract_data.py:13 | a non-empty string of digits is an accepted digit run |
| PyInt.LStripShape | extract_data.py:13 | int()'s left strip keeps a suffix that does not start with whitespace and removes only whitespace |
| PyInt.RStripShape | extract_data.py:13 | int()'s right strip keeps a prefix that does not end with whitespace and removes only whitespace |
| PyInt.StripParts | extract_data.py:13 | every character of the text is stripped whitespace or the matching character of the stripped text |
| PyInt.AcceptedCharacters | extract_data.py:13 | every character of a text int() accepts is whitespace, a digit, a sign or an underscore |
| PyInt.NeedsADigit | extract_data.py:13 | text without a digit, empty or blank text included, raises ValueError |
| PyInt.DecimalFacts | extract_data.py:13 | no digit is whitespace |
| PyInt.NotDecimal | extract_data.py:13 | below U+0660 only ASCII '0'-'9' are digits |
| LabelTable.Frame.constructor | extract_data.py:50 | the loaded frame holds the records in file order, indexed 0, 1, 2, ..., with no label yet |
| LabelTable.Frame.AssignLabels | extract_data.py:55 | every row's label cell becomes the labeller's result on its file name; nothing else changes |
| LabelTable.Frame.DropMissingLabels | extract_data.py:56 | the frame becomes its rows with a present label, in their order |
| LabelTable.Frame.IntLabels | extract_data.py:57 | the cast gives the rows with integer labels, or None when a label is missing |
| LabelTable.DropMissingMember | extract_data.py:56 | a row survives dropna exactly when it was in the frame and its label is present |
| LabelTable.DropMissingKeepsOrder | extract_data.py:56 | dropna keeps the index order of the rows it keeps |
| LabelTable.DropMissingIdempotent | extract_data.py:56 | dropping a second time drops nothing more |
| LabelTable.CastAfterDropSucceeds | extract_data.py:56-57 | after dropna no label is missing, so the cast to int cannot fail |
| LabelTable.CastRows | extract_data.py:57 | a successful cast keeps every row in place, with its index, name and features, and its label as an integer |
| LabelTable.KeptRows | extract_data.py:55-56 | the rows kept after labelling and dropna are exactly the records whose name has a label, in file order, each carrying its position, name, features and label |
| LabelTable.CastTable | extract_data.py:55-57 | after the cast, the table holds exactly the labelled records, in file order, with their labels as integers |
| LabelTable.LabelFeatures | extract_data.py:50-57 | load, label with get_label, drop and cast: the result holds exactly the records whose name gets a label, in file order, each with label 0 or 1 |

## Left out

- Reading `vocal_features.csv` (extract_data.py:50) is not modelled: the frame is built from the records the file holds, given as a parameter. The `FileNotFoundError` branch (lines 51-53) is left out as file I/O.
- `explore_data`, `visualize_feat` and the final `to_csv` (lines 24-46, 59-62) are left out: they only print, plot and write files.
- main.py, preprocess_data.py and base_model.py are not part of this model.
- A 'filename' cell that is not a string is not modelled. pandas would hold NaN there, and `split` would raise an `AttributeError` that get_label does not catch. The model takes every file name to be a string.
- The digit limit is fixed at its default of 4300. Changing it with `sys.set_int_max_str_digits` or `PYTHONINTMAXSTRDIGITS` is not modelled.
- The digit blocks and whitespace follow Unicode 15.0, the Unicode data of Python 3.12. Other interpreter versions are not modelled.
- pandas dtypes are not modelled. Before dropna the label column holds floats with NaN for a missing label; here it is `Option<int>`, with `None` for NaN.
- The feature columns other than 'filename' are carried as an opaque value and never inspected.
- LabelTable.Frame.IntLabels: returns the integer-typed rows as a new table instead of replacing the column inside the frame, because the label column changes type.
