# Phantom username checker: a verified model

The checker reads a list of candidate usernames from `usernames.txt`. It
looks each one up in Phantom's profile API and sorts it into one of three
output files by the answer: `available_usernames.txt` for 404,
`blacklisted_usernames.txt` for 403, and `taken_usernames.txt` for a 200
whose JSON body has a `username` member. It then prints a summary of how
many usernames fell into each category, errors included. The lookups run
in a thread pool, and results are tallied in whatever order they complete.

This project models every function of `main.py` in Dafny. The HTTP
exchange and the thread pool are abstracted, and printing is left out:

- `text.dfy` (module `Text`): Python's `str.strip()` with its whitespace
  set, the newline translation of a text-mode read, and how iterating over a
  text-mode file cuts it into lines.
- `input.dfy` (module `Input`): `load_usernames`, which strips every line,
  drops the blank ones and keeps the order. A missing file gives `[]`.
- `classifier.dfy` (module `Classifier`): the status table of
  `check_username`. It covers when a lookup returns `"error"` and when an
  exception escapes it.
- `host.dfy` (module `Host`): a class `Host` that holds the file system,
  as a map from path to text, and the log of lookups issued. Its methods
  are `check_username`, `save_result` and `process_username`, the
  append-or-create they use, and the truncation `main` applies to the
  output files.
- `dispatch.dfy` (module `Dispatch`): `main`, in these parts:
  - the early return when no username was loaded;
  - the truncation of the output files;
  - the pool, where every username is processed exactly once, in any
    order;
  - the if/elif/except tally.

  The proved results are:
  - the counts add up to the total;
  - each output file holds one line per username of its category,
    duplicates included, as a multiset of lines;
  - the three files together hold `total - errors` lines;
  - nothing else in the file system changes.
- `wrappers.dfy` (module `Wrappers`): `Option`.

The network is a parameter. `Run` receives one `Response` per loaded
username: either a transport failure, or a status code with an abstract
body. The model also leaves open the order in which the pool processes
the usernames, and every result about `Run` holds for all orders.

## Model

| member | source | states |
|---|---|---|
| Text.SpaceAscii | main.py:40 | on ASCII characters, `strip()` removes exactly tab, line feed, vertical tab, form feed, carriage return, the separators U+001C..U+001F and space |
| Text.Strip | main.py:40 | `line.strip()` is never longer than the line; its exact shape is stated by the lemmas below |
| Text.StripParts | main.py:40 | `line.strip()` is the middle slice of the line: what it cuts off on each side is all whitespace, and the result is empty exactly when the whole line is whitespace, which is when `if line.strip()` drops the line |
| Text.StripIsStripped | main.py:40 | a stripped line has no whitespace at either end |
| Text.StripEmpty | main.py:40 | stripping leaves nothing if and only if the line is all whitespace |
| Text.StripSuffix | main.py:40 | everything after the stripped text in the line is whitespace |
| Text.StripLacks | main.py:40 | stripping adds no character that was not in the line |
| Text.LeadIsSpace | main.py:40 | the leading part `strip` removes is whitespace, and the first character it keeps is not |
| Text.TrailIsSpace | main.py:40 | the trailing part `strip` removes is whitespace, and the last character it keeps is not |
| Text.Universal | main.py:39 | the newline translation of a text-mode read never makes the text longer |
| Text.UniversalTokens | main.py:39 | a lone `"\r"` reads as `"\n"`, a `"\r\n"` pair reads as one `"\n"`, and every other character reads as itself |
| Text.UniversalAppend | main.py:39 | the translation works token by token: cutting the text anywhere except inside a `"\r\n"` pair and translating the parts gives the translation of the whole, so together with the token cases it fixes the result on every text |
| Text.UniversalNoReturn | main.py:39 | no carriage return survives the translation |
| Text.UniversalTerminated | main.py:39 | a file ending with a newline still ends with a newline once read |
| Text.UniversalPlain | main.py:39 | a file with no carriage return is read exactly as stored |
| Text.LineLength | main.py:40 | the first line runs up to and including the first newline, or to the end of the text when there is none |
| Text.Lines | main.py:40 | the lines `for line in file` yields, concatenated, give back the whole text |
| Text.LinesShape | main.py:40 | every line is non-empty with a newline at most at its end; every line but the last ends with a newline, and so does the last when the file does |
| Text.LineIsLine | main.py:40 | each line yielded is non-empty and holds no newline before its end |
| Text.LineIsTerminated | main.py:40 | each line but the last ends with a newline |
| Text.LastLineIsTerminated | main.py:40 | the last line ends with a newline when the text does |
| Text.LineLacks | main.py:40 | a character absent from the text is absent from every line |
| Text.LinesOfJoin | main.py:40 | text made of whole lines is read back as exactly those lines, so the cut into lines is unique |
| Text.LinesAppend | main.py:40 | the lines of a newline-terminated text followed by more text are the lines of the first part followed by those of the second |
| Input.Usernames | main.py:40 | the list comprehension yields at most one username per line |
| Input.LoadUsernames | main.py:37-45 | a missing file gives `[]`; every loaded username is non-empty, has no whitespace at either end and no newline or carriage return, and there is at most one per line of the file |
| Input.UsernameSource | main.py:40 | every loaded username is some line of the file, stripped, and not empty |
| Input.UsernamesAreWellFormed | main.py:40 | whole lines without carriage returns yield only well-formed usernames |
| Input.StrippedLineHasNoBreak | main.py:40 | stripping a line removes its newline |
| Input.UsernamesAppend | main.py:40 | file order is kept: the usernames of two runs of lines are those of the first followed by those of the second |
| Input.UsernamesOfLine | main.py:40 | one line contributes its stripped text, or nothing when it is all whitespace |
| Input.LoadAppend | main.py:37-45 | a stored file cut after a newline loads as the usernames of a file holding the first part followed by those of a file holding the second |
| Input.Record | main.py:70 | the line `save_result` writes is the username followed by exactly one newline |
| Input.ReloadRecords | main.py:40 | lines written as `username + '\n'` read back as those usernames, in order |
| Input.ReloadFile | main.py:37-45 | a file holding one `username + '\n'` line per loaded username, as `save_result` writes them, loads back as exactly those usernames, in order |
| Classifier.ProfileUrl | main.py:48 | `API_URL.format(username)` is the API prefix followed by the username, unchanged |
| Classifier.ProfileUrlInjective | main.py:48 | two usernames are looked up at the same URL if and only if they are equal |
| Classifier.Classify | main.py:47-64 | the status table as one if-and-only-if per label: "available" for 404, "blacklisted" for 403, "taken" for 200 with a `username` member, and "error" for a transport failure, any other code, a 200 without the member, or a body whose decoding raises a `RequestException`; an exception escapes only for a 200 whose body cannot be tested; every returned label is one of the four |
| Host.OutputFile | main.py:11-13 | each category's output path is one of the three output files, never the input file |
| Host.SinkFor | main.py:66-78 | the file `save_result` writes to is found only for "available", "blacklisted" and "taken", and its category's label is that status; "error" and every other string go nowhere |
| Host.Saved | main.py:80-83 | the files after `process_username`: unchanged when the check raised or the status has no file; otherwise the category's file exists and holds its old text (or "" when it did not exist) followed by the username's line, and every other file is unchanged |
| Host.Host.Truncate | main.py:97 | after `open(path, 'w').close()` the file exists and is empty; no other file changes |
| Host.Host.Append | main.py:69-70 | appending creates the file when missing and adds the text at its end; no other file changes |
| Host.Host.CheckUsername | main.py:47-64 | exactly one lookup of the profile URL for the username, and the status is the table applied to its response; no file changes |
| Host.Host.SaveResult | main.py:66-78 | for the three filed labels, exactly `username + '\n'` is appended to that label's file and nothing else changes; for any other status no file changes |
| Host.Host.ProcessUsername | main.py:80-83 | one lookup, then the save: the files change as `save_result` says, and not at all when the check raised |
| Dispatch.Tally | main.py:103-115 | a completed future counts as an error exactly when no file received a line for it; otherwise it counts under the category of the file that did |
| Dispatch.TallyOne | main.py:104-115 | the if/elif/else chain and the `except` branch raise the counter of the status's category by one and leave the other three |
| Dispatch.Submissions | main.py:100 | one submitted work item per loaded username |
| Dispatch.CountsAddUp | main.py:90-115 | every item is counted under exactly one category: the four counts add up to the number of items |
| Dispatch.FiledMatchesCount | main.py:66-78 | a category's file receives one line per item counted under that category |
| Dispatch.OutputLinesAreNonErrors | main.py:66-78 | the three files together receive one line per item that is not an error |
| Dispatch.FiledMembers | main.py:66-78 | a line is written to a category's file if and only if it is `username + '\n'` for an item counted under that category |
| Dispatch.FiledMultiplicity | main.py:66-78 | duplicates are kept: a username's line appears in a category's file once per item with that username counted there |
| Dispatch.FiledAreLines | main.py:70 | every line written is a whole, newline-terminated line |
| Dispatch.OrderIndependentFiled | main.py:99-101 | two processing orders of the same items write the same lines to each file, up to order |
| Dispatch.OrderIndependentCount | main.py:99-101 | two processing orders of the same items give the same counts |
| Dispatch.OrderIndependentUrls | main.py:99-101 | two processing orders of the same items issue the same lookups, up to order |
| Dispatch.Outputs | main.py:99-101 | processing a sequence of items never removes a file |
| Dispatch.OutputsContents | main.py:96-101 | after truncation, a category's file holds exactly the lines of its items, in the order the items were processed |
| Dispatch.OutputsFrame | main.py:99-101 | processing creates no file and changes no file but the three outputs |
| Dispatch.Processed | main.py:80-83 | completing one more item applies `process_username`'s effect to the files as they were |
| Dispatch.Tallied | main.py:103-115 | completing one more item raises exactly the count of its category by one and issues one more lookup, for its username |
| Dispatch.Finish | main.py:99-115 | once every item has completed, in any order, each output file read line by line holds, as a multiset, the lines of its category's items; the counts equal those of the submission order; nothing else changed |
| Dispatch.TruncateOutputs | main.py:96-97 | the three output files exist and are empty; every other file is unchanged; no lookup is issued |
| Dispatch.CompleteOne | main.py:101-115 | one more processed item extends the processing order by one: its lookup, its line if it has one, and its count |
| Dispatch.ProcessAll | main.py:99-115 | the pool processes every item exactly once, in some order; files, lookups and counts are those of that processing order (which need not be the order `as_completed` yields the futures in; the counts do not depend on it) |
| Dispatch.DispatchAll | main.py:99-115 | the counts are those of the submitted items; each output file holds, as a multiset of lines, the lines of its category; each username is looked up once; no other file changes |
| Dispatch.SummaryAddsUp | main.py:90-122 | the printed counts add up to the total, and the three files hold `total - errors` lines |
| Dispatch.Run | main.py:85-115 | no username loaded: no file is truncated, no lookup is issued and there is no summary; otherwise the summary's total is the number of usernames, its counts add up to it, its counts are those of the items, each output file holds its category's lines, the files hold `total - errors` lines, and only the output files change |

## Left out

- The HTTP exchange is not modelled: the headers, the 10-second timeout and `requests.get` itself. Each lookup's outcome is a `Response` parameter, either a transport failure or a status code with an abstract body. The lookup URL is modelled as the API prefix followed by the username, without URL encoding, as `str.format` does.
- JSON decoding is abstracted to three outcomes. `"username" in data` is true (a dict key, a list element, a substring of a JSON string), false, or a `TypeError` for a number, a boolean or null. The body can also fail to decode, raising either a `RequestException` or some other exception, depending on the `requests` version.
- Threads, `MAX_THREADS` and the three locks are not modelled. The locks make each append to a file indivisible, so the model runs whole `process_username` calls one after another, in an order it leaves open. Overlapping lookups are represented only through that order.
- The `tqdm` progress bar and every `print` are left out. `Run` returns the summary that `main` prints instead.
- Encoding and I/O errors are not modelled:
  - a `UnicodeDecodeError` or another `OSError` raised while reading the input file;
  - a failure to create or write an output file, which in the source would escape `process_username` and be counted as an error by `main`.

  Text is a sequence of characters that is already decoded.
- Writes are modelled as on POSIX: `'\n'` is written unchanged. Newline translation on write, such as on Windows, is not modelled.
- Dispatch.DispatchAll: states each output file's lines as a multiset, not as an exact text, because their order is the order in which the worker threads took the file locks. `Dispatch.ProcessAll` states the exact text for the processing order it took.
- Dispatch.Run: requires one response per loaded username, because the network is an input to the model.
