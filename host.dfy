/** The process's side effects: the files it reads and writes, and the profile
    lookups it issues. `save_result` and `process_username` live here. */
module Host {
  import opened Wrappers
  import opened Classifier
  import opened Input

  const USERNAMES_FILE: string := "usernames.txt"
  const OUTPUT_AVAILABLE: string := "available_usernames.txt"
  const OUTPUT_BLACKLISTED: string := "blacklisted_usernames.txt"
  const OUTPUT_TAKEN: string := "taken_usernames.txt"

  /** The output files, in the order `main` truncates them. */
  const OUTPUT_FILES: seq<string> := [OUTPUT_AVAILABLE, OUTPUT_BLACKLISTED, OUTPUT_TAKEN]

  /** The four tallies of a run; all but `Error` have an output file. */
  datatype Category = Available | Blacklisted | Taken | Error

  /** The label `check_username` returns for each category. */
  function Label(c: Category): string {
    match c
    case Available => AVAILABLE
    case Blacklisted => BLACKLISTED
    case Taken => TAKEN
    case Error => ERROR
  }

  function OutputFile(c: Category): (path: string)
    requires c != Error
    ensures path in OUTPUT_FILES && path != USERNAMES_FILE
  {
    match c
    case Available => OUTPUT_AVAILABLE
    case Blacklisted => OUTPUT_BLACKLISTED
    case Taken => OUTPUT_TAKEN
  }

  /** The if/elif of `save_result`: which file, if any, a status is written to.
      It undoes `Label` on the three filed categories, and every other status
      string, "error" included, goes nowhere. */
  function SinkFor(status: string): (sink: Option<Category>)
    ensures sink.Some? ==> sink.value != Error && Label(sink.value) == status
    ensures sink.None? <==> status !in {AVAILABLE, BLACKLISTED, TAKEN}
  {
    if status == AVAILABLE then Some(Available)
    else if status == BLACKLISTED then Some(Blacklisted)
    else if status == TAKEN then Some(Taken)
    else None
  }

  /** Where `process_username` writes: nowhere when `check_username` raised,
      since `save_result` is then never reached. */
  function Sink(status: Outcome<string>): Option<Category> {
    if status.Returned? then SinkFor(status.value) else None
  }

  /** The text of `path`, or "" when it does not exist (what opening it for
      appending starts from). */
  function Contents(files: map<string, string>, path: string): string {
    if path in files then files[path] else ""
  }

  /** The files once `process_username(username)` has finished with `status`:
      one more line for `username` at the end of the file of its category, or
      no change for "error", an unrecognised label or a raised exception. */
  function Saved(files: map<string, string>, username: string, status: Outcome<string>): (after: map<string, string>)
    ensures Sink(status).None? ==> after == files
    ensures Sink(status).Some? ==>
              var path := OutputFile(Sink(status).value);
              && after.Keys == files.Keys + {path}
              && after[path] == Contents(files, path) + Record(username)
              && (forall p | p in files && p != path :: after[p] == files[p])
  {
    match Sink(status)
    case Some(c) => files[OutputFile(c) := Contents(files, OutputFile(c)) + Record(username)]
    case None => files
  }

  /** The file system and the network as the checker sees them. */
  class Host {
    /** Every file's text, by path. */
    var files: map<string, string>
    /** The URLs of the profile lookups issued so far, in order. */
    var requests: seq<string>

    constructor (files: map<string, string>)
      ensures this.files == files && requests == []
    {
      this.files := files;
      requests := [];
    }

    /** `open(path, 'w').close()`: the file exists and is empty. */
    method Truncate(path: string)
      modifies this
      ensures files == old(files)[path := ""]
      ensures requests == old(requests)
    {
      files := files[path := ""];
    }

    /** `open(path, 'a').write(text)`: creates the file if needed and adds
        `text` at its end. */
    method Append(path: string, text: string)
      modifies this
      ensures files == old(files)[path := Contents(old(files), path) + text]
      ensures requests == old(requests)
    {
      files := files[path := Contents(files, path) + text];
    }

    /** `check_username`: exactly one lookup of the profile URL, then the
        status table applied to the response. */
    method CheckUsername(username: string, response: Response) returns (status: Outcome<string>)
      modifies this
      ensures requests == old(requests) + [ProfileUrl(username)]
      ensures files == old(files)
      ensures status == Classify(response)
    {
      requests := requests + [ProfileUrl(username)];
      status := Classify(response);
    }

    /** `save_result`: one line for `username` in the file of its category;
        no file changes for "error" or any unrecognised status. */
    method SaveResult(username: string, status: string)
      modifies this
      ensures SinkFor(status).None? ==> files == old(files)
      ensures SinkFor(status).Some? ==>
                var path := OutputFile(SinkFor(status).value);
                files == old(files)[path := Contents(old(files), path) + Record(username)]
      ensures requests == old(requests)
    {
      if status == AVAILABLE {
        Append(OUTPUT_AVAILABLE, Record(username));
      } else if status == BLACKLISTED {
        Append(OUTPUT_BLACKLISTED, Record(username));
      } else if status == TAKEN {
        Append(OUTPUT_TAKEN, Record(username));
      }
    }

    /** `process_username`: check, then save. An exception raised by the
        check skips the save and is passed on to the caller. */
    method ProcessUsername(username: string, response: Response) returns (status: Outcome<string>)
      modifies this
      ensures status == Classify(response)
      ensures requests == old(requests) + [ProfileUrl(username)]
      ensures files == Saved(old(files), username, status)
    {
      status := CheckUsername(username, response);
      if status.Returned? {
        SaveResult(username, status.value);
      }
    }
  }
}
