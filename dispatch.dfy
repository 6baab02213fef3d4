/** `main`: load the usernames, truncate the output files, run every username
    through `process_username` and tally the statuses as they complete.

    The thread pool is modelled by its observable effect: every submitted
    username is processed exactly once, by one whole `process_username` call
    (the file locks make each append indivisible), in an order the model
    leaves open. The tally uses the same order; since the counts do not
    depend on it (`OrderIndependentCount`), the order in which `as_completed`
    yields the futures needs no model of its own. Each step picks any
    pending item, so what is proved holds for every order. */
module Dispatch {
  import opened Wrappers
  import opened Text
  import opened Input
  import opened Classifier
  import opened Host

  /** One submitted work item: a username and the response its lookup gets. */
  datatype Submission = Submission(username: string, response: Response)

  /** The counts `main` prints at the end of a run. */
  datatype Summary = Summary(total: nat, available: nat, blacklisted: nat, taken: nat, errors: nat)

  /** The category `main` counts a completed future under. It agrees with
      `save_result`: an item is an error exactly when no file receives a line
      for it, and otherwise it is counted under the category of the file that
      does. */
  function Tally(status: Outcome<string>): (c: Category)
    ensures c == Error <==> Sink(status).None?
    ensures c != Error ==> Sink(status) == Some(c)
  {
    match status
    case Raised(_) => Error
    case Returned(s) =>
      if s == AVAILABLE then Available
      else if s == BLACKLISTED then Blacklisted
      else if s == TAKEN then Taken
      else Error
  }

  /** The category an item ends up counted under. */
  function CategoryOf(s: Submission): Category {
    Tally(Classify(s.response))
  }

  /** The work items of a run, one per loaded username. */
  function Submissions(names: seq<string>, responses: seq<Response>): (subs: seq<Submission>)
    requires |names| == |responses|
    ensures |subs| == |names|
  {
    seq(|names|, i requires 0 <= i < |names| => Submission(names[i], responses[i]))
  }

  /** The lines `save_result` writes to the file of `c` when `subs` are
      processed in this order. */
  function Filed(subs: seq<Submission>, c: Category): seq<string> {
    if subs == [] then [] else Written(subs[0], c) + Filed(subs[1..], c)
  }

  /** The line one item adds to the file of `c`, if any. */
  function Written(s: Submission, c: Category): seq<string> {
    if SinkOf(s) == Some(c) then [Record(s.username)] else []
  }

  /** The file an item's line goes to, if any. */
  function SinkOf(s: Submission): Option<Category> {
    Sink(Classify(s.response))
  }

  /** How many of `subs` `main` counts under `c`. */
  function Count(subs: seq<Submission>, c: Category): nat {
    if subs == [] then 0 else Counted(subs[0], c) + Count(subs[1..], c)
  }

  function Counted(s: Submission, c: Category): nat {
    if CategoryOf(s) == c then 1 else 0
  }

  /** The lookup URLs the items of `subs` issue. */
  function Urls(subs: seq<Submission>): (urls: seq<string>)
    ensures |urls| == |subs|
    ensures forall i | 0 <= i < |subs| :: urls[i] == ProfileUrl(subs[i].username)
  {
    seq(|subs|, i requires 0 <= i < |subs| => ProfileUrl(subs[i].username))
  }

  lemma {:induction false} FiledAppend(a: seq<Submission>, b: seq<Submission>, c: Category)
    ensures Filed(a + b, c) == Filed(a, c) + Filed(b, c)
  {
    if a == [] {
      assert a + b == b;
    } else {
      assert (a + b)[0] == a[0] && (a + b)[1..] == a[1..] + b;
      FiledAppend(a[1..], b, c);
    }
  }

  lemma {:induction false} CountAppend(a: seq<Submission>, b: seq<Submission>, c: Category)
    ensures Count(a + b, c) == Count(a, c) + Count(b, c)
  {
    if a == [] {
      assert a + b == b;
    } else {
      assert (a + b)[0] == a[0] && (a + b)[1..] == a[1..] + b;
      CountAppend(a[1..], b, c);
    }
  }

  /** Every item is counted exactly once: the four counts add up to the
      number of items. */
  lemma {:induction false} CountsAddUp(subs: seq<Submission>)
    ensures Count(subs, Available) + Count(subs, Blacklisted) + Count(subs, Taken)
            + Count(subs, Error) == |subs|
  {
    if subs != [] {
      CountsAddUp(subs[1..]);
    }
  }

  /** A category's file receives one line per item counted under it. */
  lemma {:induction false} FiledMatchesCount(subs: seq<Submission>, c: Category)
    requires c != Error
    ensures |Filed(subs, c)| == Count(subs, c)
  {
    if subs != [] {
      FiledMatchesCount(subs[1..], c);
    }
  }

  /** The three files together hold one line per item that is not an error. */
  lemma OutputLinesAreNonErrors(subs: seq<Submission>)
    ensures |Filed(subs, Available)| + |Filed(subs, Blacklisted)| + |Filed(subs, Taken)|
            == |subs| - Count(subs, Error)
  {
    CountsAddUp(subs);
    FiledMatchesCount(subs, Available);
    FiledMatchesCount(subs, Blacklisted);
    FiledMatchesCount(subs, Taken);
  }

  /** A line is in the file of `c` exactly when it is the record of an item
      counted under `c`. */
  lemma {:induction false} FiledMembers(subs: seq<Submission>, c: Category, line: string)
    requires c != Error
    ensures line in Filed(subs, c) <==>
              exists i | 0 <= i < |subs| :: CategoryOf(subs[i]) == c && line == Record(subs[i].username)
  {
    if subs != [] {
      FiledMembers(subs[1..], c, line);
      if line in Filed(subs[1..], c) {
        var i :| 0 <= i < |subs[1..]| && CategoryOf(subs[1..][i]) == c
                 && line == Record(subs[1..][i].username);
        assert subs[i + 1] == subs[1..][i];
      }
      if exists i | 0 <= i < |subs| :: CategoryOf(subs[i]) == c && line == Record(subs[i].username) {
        var i :| 0 <= i < |subs| && CategoryOf(subs[i]) == c && line == Record(subs[i].username);
        if i > 0 {
          assert subs[1..][i - 1] == subs[i];
        }
      }
    }
  }

  /** Duplicates are kept: the file of `c` holds the record of `u` once per
      item with that username counted under `c`. */
  lemma {:induction false} FiledMultiplicity(subs: seq<Submission>, c: Category, u: string)
    requires c != Error
    ensures multiset(Filed(subs, c))[Record(u)] == Count(Matching(subs, u), c)
  {
    if subs != [] {
      var s := subs[0];
      var head := if s.username == u then [s] else [];
      FiledMultiplicity(subs[1..], c, u);
      CountAppend(head, Matching(subs[1..], u), c);
      assert Record(s.username) == Record(u) ==> s.username == u by {
        var r0, r := Record(s.username), Record(u);
        if r0 == r { assert r0[..|r0| - 1] == s.username && r[..|r| - 1] == u; }
      }
      assert multiset(Written(s, c))[Record(u)] == Count(head, c);
    }
  }

  /** The items of `subs` for username `u`. */
  function Matching(subs: seq<Submission>, u: string): seq<Submission> {
    if subs == [] then []
    else (if subs[0].username == u then [subs[0]] else []) + Matching(subs[1..], u)
  }

  lemma UrlsAppend(a: seq<Submission>, b: seq<Submission>)
    ensures Urls(a + b) == Urls(a) + Urls(b)
  {
  }

  /** The first item of `a` occurs in `b`; taking it out of both leaves two
      sequences with the same items. */
  lemma Pick<T>(a: seq<T>, b: seq<T>) returns (front: seq<T>, back: seq<T>)
    requires a != [] && multiset(a) == multiset(b)
    ensures b == front + [a[0]] + back
    ensures multiset(a[1..]) == multiset(front + back)
  {
    var x := a[0];
    assert a == [x] + a[1..];
    assert x in multiset(b);
    var i :| 0 <= i < |b| && b[i] == x;
    front, back := b[..i], b[i + 1..];
    assert b == front + [x] + back;
    assert multiset(a) == multiset(a[1..]) + multiset{x};
    assert multiset(b) == multiset(front + back) + multiset{x};
    assert multiset(a[1..]) == multiset(a) - multiset{x};
  }

  /** Completion order does not matter for the files: two runs that complete
      the same items in different orders write the same lines to each file,
      up to their order. */
  lemma {:induction false} OrderIndependentFiled(a: seq<Submission>, b: seq<Submission>, c: Category)
    requires multiset(a) == multiset(b)
    ensures multiset(Filed(a, c)) == multiset(Filed(b, c))
    decreases |a|
  {
    if a == [] {
      assert |b| == |multiset(b)| == 0;
    } else {
      var x := a[0];
      var front, back := Pick(a, b);
      OrderIndependentFiled(a[1..], front + back, c);
      assert Filed(a, c) == Written(x, c) + Filed(a[1..], c);
      FiledAppend(front + [x], back, c);
      FiledAppend(front, [x], c);
      FiledAppend(front, back, c);
      assert Filed([x], c) == Written(x, c);
    }
  }

  /** Nor for the counts. */
  lemma {:induction false} OrderIndependentCount(a: seq<Submission>, b: seq<Submission>, c: Category)
    requires multiset(a) == multiset(b)
    ensures Count(a, c) == Count(b, c)
    decreases |a|
  {
    if a == [] {
      assert |b| == |multiset(b)| == 0;
    } else {
      var x := a[0];
      var front, back := Pick(a, b);
      OrderIndependentCount(a[1..], front + back, c);
      CountAppend(front + [x], back, c);
      CountAppend(front, [x], c);
      CountAppend(front, back, c);
      assert Count([x], c) == Counted(x, c);
    }
  }

  /** Nor for the lookups issued. */
  lemma {:induction false} OrderIndependentUrls(a: seq<Submission>, b: seq<Submission>)
    requires multiset(a) == multiset(b)
    ensures multiset(Urls(a)) == multiset(Urls(b))
    decreases |a|
  {
    if a == [] {
      assert |b| == |multiset(b)| == 0;
    } else {
      var x := a[0];
      var front, back := Pick(a, b);
      OrderIndependentUrls(a[1..], front + back);
      UrlsAppend([x], a[1..]);
      UrlsAppend(front + [x], back);
      UrlsAppend(front, [x]);
      UrlsAppend(front, back);
      assert a == [x] + a[1..];
    }
  }

  /** Taking the item at position `j` out of the pending items and adding it
      to the completed ones keeps the items of the run. */
  lemma Complete(pending: seq<Submission>, done: seq<Submission>, j: nat)
    requires j < |pending|
    ensures multiset(done + [pending[j]]) + multiset(pending[..j] + pending[j + 1..])
            == multiset(done) + multiset(pending)
  {
    assert pending == pending[..j] + [pending[j]] + pending[j + 1..];
  }

  /** One more item completed. */
  lemma Step(done: seq<Submission>, s: Submission, c: Category)
    ensures Filed(done + [s], c) == Filed(done, c) + Written(s, c)
    ensures Count(done + [s], c) == Count(done, c) + Counted(s, c)
  {
    FiledAppend(done, [s], c);
    CountAppend(done, [s], c);
    assert [s][1..] == [];
  }

  /** Every line a file receives is a whole, newline-terminated line. */
  lemma {:induction false} FiledAreLines(subs: seq<Submission>, c: Category)
    requires forall i | 0 <= i < |subs| :: IsUsername(subs[i].username)
    ensures forall i | 0 <= i < |Filed(subs, c)| :: IsLine(Filed(subs, c)[i]) && Terminated(Filed(subs, c)[i])
  {
    if subs != [] {
      FiledAreLines(subs[1..], c);
    }
  }

  /** The files once the items `done` have been processed, in that order. */
  ghost function Outputs(files: map<string, string>, done: seq<Submission>): (after: map<string, string>)
    ensures files.Keys <= after.Keys
  {
    if done == [] then files
    else
      var s := done[|done| - 1];
      Saved(Outputs(files, done[..|done| - 1]), s.username, Classify(s.response))
  }

  /** Starting from an empty output file, the file of category `c` holds the
      lines of the items of that category, in the order they were processed. */
  lemma {:induction false} OutputsContents(files: map<string, string>, done: seq<Submission>, c: Category)
    requires c != Error && OutputFile(c) in files && files[OutputFile(c)] == ""
    ensures OutputFile(c) in Outputs(files, done)
    ensures Outputs(files, done)[OutputFile(c)] == Join(Filed(done, c))
  {
    if done != [] {
      var init, s := done[..|done| - 1], done[|done| - 1];
      assert done == init + [s];
      var prev := Outputs(files, init);
      assert done[..|done| - 1] == init;
      assert Outputs(files, done) == Saved(prev, s.username, Classify(s.response));
      OutputsContents(files, init, c);
      Step(init, s, c);
      JoinAppend(Filed(init, c), Written(s, c));
      match SinkOf(s)
      case Some(d) =>
        if d == c {
          assert Join(Written(s, c)) == Record(s.username);
        } else {
          assert OutputFile(d) != OutputFile(c);
          assert Written(s, c) == [];
        }
      case None =>
        assert Written(s, c) == [];
    }
  }

  /** Processing creates no file and touches no file other than the outputs. */
  lemma {:induction false} OutputsFrame(files: map<string, string>, done: seq<Submission>)
    requires forall p | p in OUTPUT_FILES :: p in files
    ensures Outputs(files, done).Keys == files.Keys
    ensures forall p | p in files && p !in OUTPUT_FILES :: Outputs(files, done)[p] == files[p]
  {
    if done != [] {
      OutputsFrame(files, done[..|done| - 1]);
    }
  }

  /** Completing one more item applies `process_username`'s effect to the
      files as they were. */
  lemma Processed(files: map<string, string>, done: seq<Submission>, item: Submission)
    ensures Outputs(files, done + [item]) == Saved(Outputs(files, done), item.username, Classify(item.response))
  {
    assert (done + [item])[..|done|] == done;
  }

  /** What completing one more item does to the counts and the lookups, in
      the terms of the tally in `main`. */
  lemma Tallied(sent: seq<string>, done: seq<Submission>, item: Submission, status: Outcome<string>)
    requires status == Classify(item.response)
    ensures Count(done + [item], Available) == Count(done, Available) + if Tally(status) == Available then 1 else 0
    ensures Count(done + [item], Blacklisted) == Count(done, Blacklisted) + if Tally(status) == Blacklisted then 1 else 0
    ensures Count(done + [item], Taken) == Count(done, Taken) + if Tally(status) == Taken then 1 else 0
    ensures Count(done + [item], Error) == Count(done, Error) + if Tally(status) == Error then 1 else 0
    ensures sent + Urls(done + [item]) == sent + Urls(done) + [ProfileUrl(item.username)]
  {
    Step(done, item, Available);
    Step(done, item, Blacklisted);
    Step(done, item, Taken);
    Step(done, item, Error);
    UrlsAppend(done, [item]);
  }

  /** Once every item has been completed, in whatever order, each output file
      holds the lines of the items of its category, and nothing else changed. */
  lemma Finish(files: map<string, string>, done: seq<Submission>, subs: seq<Submission>)
    requires forall p | p in OUTPUT_FILES :: p in files && files[p] == ""
    requires forall i | 0 <= i < |subs| :: IsUsername(subs[i].username)
    requires multiset(done) == multiset(subs)
    ensures Outputs(files, done).Keys == files.Keys
    ensures forall p | p in files && p !in OUTPUT_FILES :: Outputs(files, done)[p] == files[p]
    ensures forall c | c != Error ::
              OutputFile(c) in Outputs(files, done)
              && multiset(Lines(Outputs(files, done)[OutputFile(c)])) == multiset(Filed(subs, c))
    ensures Count(done, Available) == Count(subs, Available)
    ensures Count(done, Blacklisted) == Count(subs, Blacklisted)
    ensures Count(done, Taken) == Count(subs, Taken)
    ensures Count(done, Error) == Count(subs, Error)
    ensures multiset(Urls(done)) == multiset(Urls(subs))
  {
    forall i | 0 <= i < |done|
      ensures IsUsername(done[i].username)
    {
      assert done[i] in multiset(subs);
    }
    OutputsFrame(files, done);
    forall c | c != Error
      ensures OutputFile(c) in Outputs(files, done)
      ensures multiset(Lines(Outputs(files, done)[OutputFile(c)])) == multiset(Filed(subs, c))
    {
      OutputsContents(files, done, c);
      FiledAreLines(done, c);
      LinesOfJoin(Filed(done, c));
      OrderIndependentFiled(done, subs, c);
    }
    OrderIndependentCount(done, subs, Available);
    OrderIndependentCount(done, subs, Blacklisted);
    OrderIndependentCount(done, subs, Taken);
    OrderIndependentCount(done, subs, Error);
    OrderIndependentUrls(done, subs);
  }

  /** The truncation loop of `main`: every output file exists and is empty,
      every other file is as it was. */
  method TruncateOutputs(host: Host)
    modifies host
    ensures host.files.Keys == old(host.files).Keys + set p | p in OUTPUT_FILES
    ensures forall p | p in OUTPUT_FILES :: host.files[p] == ""
    ensures forall p | p in old(host.files) && p !in OUTPUT_FILES :: host.files[p] == old(host.files)[p]
    ensures host.requests == old(host.requests)
  {
    for i := 0 to |OUTPUT_FILES|
      invariant host.files.Keys == old(host.files).Keys + set p | p in OUTPUT_FILES[..i]
      invariant forall p | p in OUTPUT_FILES[..i] :: host.files[p] == ""
      invariant forall p | p in old(host.files) && p !in OUTPUT_FILES[..i] :: host.files[p] == old(host.files)[p]
      invariant host.requests == old(host.requests)
    {
      host.Truncate(OUTPUT_FILES[i]);
    }
    assert OUTPUT_FILES[..|OUTPUT_FILES|] == OUTPUT_FILES;
  }

  /** The if/elif/else chain and the `except` branch of the loop over
      `as_completed`: the counter of the status's category goes up by one and
      the other three stay. */
  method TallyOne(status: Outcome<string>, available: nat, blacklisted: nat, taken: nat, errors: nat)
    returns (available': nat, blacklisted': nat, taken': nat, errors': nat)
    ensures available' == available + if Tally(status) == Available then 1 else 0
    ensures blacklisted' == blacklisted + if Tally(status) == Blacklisted then 1 else 0
    ensures taken' == taken + if Tally(status) == Taken then 1 else 0
    ensures errors' == errors + if Tally(status) == Error then 1 else 0
  {
    available', blacklisted', taken', errors' := available, blacklisted, taken, errors;
    match status {
      case Returned(s) =>
        if s == AVAILABLE {
          available' := available + 1;
        } else if s == BLACKLISTED {
          blacklisted' := blacklisted + 1;
        } else if s == TAKEN {
          taken' := taken + 1;
        } else {
          errors' := errors + 1;
        }
      case Raised(_) =>
        errors' := errors + 1;
    }
  }

  /** One completed future: `process_username` has handled `item`, and its
      status is tallied. `done` are the items completed before it. */
  method CompleteOne(host: Host, item: Submission, ghost files0: map<string, string>, ghost sent: seq<string>,
                     ghost done: seq<Submission>, available: nat, blacklisted: nat, taken: nat, errors: nat)
    returns (available': nat, blacklisted': nat, taken': nat, errors': nat)
    requires host.files == Outputs(files0, done) && host.requests == sent + Urls(done)
    requires available == Count(done, Available) && blacklisted == Count(done, Blacklisted)
    requires taken == Count(done, Taken) && errors == Count(done, Error)
    modifies host
    ensures host.files == Outputs(files0, done + [item]) && host.requests == sent + Urls(done + [item])
    ensures available' == Count(done + [item], Available) && blacklisted' == Count(done + [item], Blacklisted)
    ensures taken' == Count(done + [item], Taken) && errors' == Count(done + [item], Error)
  {
    var status := host.ProcessUsername(item.username, item.response);
    available', blacklisted', taken', errors' := TallyOne(status, available, blacklisted, taken, errors);
    Processed(files0, done, item);
    Tallied(sent, done, item, status);
  }

  /** The pool and the loop over `as_completed`: every item is processed once,
      by `process_username`, in a processing order `done` the model leaves
      open, and its status tallied. */
  method ProcessAll(host: Host, subs: seq<Submission>)
    returns (available: nat, blacklisted: nat, taken: nat, errors: nat, ghost done: seq<Submission>)
    modifies host
    ensures multiset(done) == multiset(subs)
    ensures host.files == Outputs(old(host.files), done)
    ensures host.requests == old(host.requests) + Urls(done)
    ensures available == Count(done, Available) && blacklisted == Count(done, Blacklisted)
    ensures taken == Count(done, Taken) && errors == Count(done, Error)
  {
    ghost var files0 := host.files;
    done := [];
    available, blacklisted, taken, errors := 0, 0, 0, 0;
    var pending := subs;
    while pending != []
      invariant multiset(done) + multiset(pending) == multiset(subs)
      invariant host.files == Outputs(files0, done)
      invariant host.requests == old(host.requests) + Urls(done)
      invariant available == Count(done, Available)
      invariant blacklisted == Count(done, Blacklisted)
      invariant taken == Count(done, Taken)
      invariant errors == Count(done, Error)
      decreases |pending|
    {
      var j :| 0 <= j < |pending|;
      var item := pending[j];
      Complete(pending, done, j);
      pending := pending[..j] + pending[j + 1..];

      available, blacklisted, taken, errors :=
        CompleteOne(host, item, files0, old(host.requests), done, available, blacklisted, taken, errors);
      done := done + [item];
    }
  }

  /** The dispatch part of `main`: each username is processed once, in any
      order, and its status tallied. Each output file ends up
      holding, in some order, exactly the lines `save_result` writes for the
      items of its category. */
  method DispatchAll(host: Host, usernames: seq<string>, responses: seq<Response>)
    returns (available: nat, blacklisted: nat, taken: nat, errors: nat)
    requires |responses| == |usernames|
    requires forall i | 0 <= i < |usernames| :: IsUsername(usernames[i])
    requires forall p | p in OUTPUT_FILES :: p in host.files && host.files[p] == ""
    modifies host
    ensures host.files.Keys == old(host.files).Keys
    ensures var subs := Submissions(usernames, responses);
            && available == Count(subs, Available)
            && blacklisted == Count(subs, Blacklisted)
            && taken == Count(subs, Taken)
            && errors == Count(subs, Error)
            && (forall c | c != Error ::
                  OutputFile(c) in host.files
                  && multiset(Lines(host.files[OutputFile(c)])) == multiset(Filed(subs, c)))
            && multiset(host.requests) == multiset(old(host.requests)) + multiset(Urls(subs))
    ensures forall p | p in old(host.files) && p !in OUTPUT_FILES :: host.files[p] == old(host.files)[p]
  {
    var subs := Submissions(usernames, responses);
    ghost var done;
    available, blacklisted, taken, errors, done := ProcessAll(host, subs);
    Finish(old(host.files), done, subs);
  }

  /** `main`. Returns the summary it prints, or `None` when it stops early
      because no username was loaded. */
  method Run(host: Host, responses: seq<Response>) returns (summary: Option<Summary>)
    requires |responses| == |LoadUsernames(host.files, USERNAMES_FILE)|
    modifies host
    ensures var names := LoadUsernames(old(host.files), USERNAMES_FILE);
            names == [] ==>
              summary == None && host.files == old(host.files) && host.requests == old(host.requests)
    ensures var names := LoadUsernames(old(host.files), USERNAMES_FILE);
            names != [] ==>
              var subs := Submissions(names, responses);
              && summary == Some(Summary(|names|, Count(subs, Available), Count(subs, Blacklisted),
                                         Count(subs, Taken), Count(subs, Error)))
              && (forall c | c != Error ::
                    OutputFile(c) in host.files
                    && multiset(Lines(host.files[OutputFile(c)])) == multiset(Filed(subs, c)))
              && host.files.Keys == old(host.files).Keys + set p | p in OUTPUT_FILES
              && (forall p | p in old(host.files) && p !in OUTPUT_FILES ::
                    p in host.files && host.files[p] == old(host.files)[p])
              && multiset(host.requests) == multiset(old(host.requests)) + multiset(Urls(subs))
    ensures summary.Some? ==>
              var sum := summary.value;
              && sum.available + sum.blacklisted + sum.taken + sum.errors == sum.total
              && OUTPUT_AVAILABLE in host.files && OUTPUT_BLACKLISTED in host.files && OUTPUT_TAKEN in host.files
              && |Lines(host.files[OUTPUT_AVAILABLE])| + |Lines(host.files[OUTPUT_BLACKLISTED])|
                 + |Lines(host.files[OUTPUT_TAKEN])| == sum.total - sum.errors
  {
    var usernames := LoadUsernames(host.files, USERNAMES_FILE);
    if |usernames| == 0 {
      return None;
    }
    var total := |usernames|;
    TruncateOutputs(host);
    var available, blacklisted, taken, errors := DispatchAll(host, usernames, responses);
    summary := Some(Summary(total, available, blacklisted, taken, errors));
    SummaryAddsUp(host.files, Submissions(usernames, responses));
  }

  /** The totals `main` prints agree with each other and with the files: the
      counts add up to the number of usernames, and the files hold one line
      per username that was not an error. */
  lemma SummaryAddsUp(files: map<string, string>, subs: seq<Submission>)
    requires forall c | c != Error ::
               OutputFile(c) in files && multiset(Lines(files[OutputFile(c)])) == multiset(Filed(subs, c))
    ensures OUTPUT_AVAILABLE in files && OUTPUT_BLACKLISTED in files && OUTPUT_TAKEN in files
    ensures Count(subs, Available) + Count(subs, Blacklisted) + Count(subs, Taken) + Count(subs, Error) == |subs|
    ensures |Lines(files[OUTPUT_AVAILABLE])| + |Lines(files[OUTPUT_BLACKLISTED])| + |Lines(files[OUTPUT_TAKEN])|
            == |subs| - Count(subs, Error)
  {
    assert OUTPUT_AVAILABLE == OutputFile(Available);
    assert OUTPUT_BLACKLISTED == OutputFile(Blacklisted);
    assert OUTPUT_TAKEN == OutputFile(Taken);
    CountsAddUp(subs);
    OutputLinesAreNonErrors(subs);
    SameLength(Lines(files[OUTPUT_AVAILABLE]), Filed(subs, Available));
    SameLength(Lines(files[OUTPUT_BLACKLISTED]), Filed(subs, Blacklisted));
    SameLength(Lines(files[OUTPUT_TAKEN]), Filed(subs, Taken));
  }

  lemma SameLength(a: seq<string>, b: seq<string>)
    requires multiset(a) == multiset(b)
    ensures |a| == |b|
  {
    assert |multiset(a)| == |multiset(b)|;
  }
}
