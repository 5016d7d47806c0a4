/**
 * The observable side of one run of the action: the calls it makes on its
 * collaborators (cache, HTTP client, file system, glob, the `core` toolkit),
 * recorded in order as an effect log, together with the values collaborators
 * may throw and the way the action turns a thrown value into text.
 */
module Effects {

  /** A value thrown by a collaborator: an `Error` instance, or anything else. */
  datatype Thrown =
    | ErrorInstance(message: string, stack: string)  // `stack == ""` stands for a missing or empty stack
    | NonError(json: string)                         // the value as `JSON.stringify` renders it

  /** An optional value; `None` stands for JavaScript's `undefined`. */
  datatype Option<T> = None | Some(value: T)

  /** The outcome of one awaited collaborator call. */
  datatype Call<T> = Returns(value: T) | Throws(error: Thrown)

  /** One call of the action on the outside world. */
  datatype Effect =
    | Hash(data: string)                              // SHA-256 of the schema URL
    | RestoreCache(paths: seq<string>, key: string)   // cache.restoreCache
    | SaveCache(paths: seq<string>, key: string)      // cache.saveCache
    | HttpGet(url: string)                            // HttpClient.get
    | WriteFile(path: string, data: string)           // fs.writeFile
    | ReadFile(path: string)                          // fs.readFile
    | GlobCreate(patterns: string)                    // glob.create
    | Debug(message: string)                          // core.debug
    | Warning(message: string)                        // core.warning
    | ErrorRecord(message: string)                    // core.error
    | SetFailed(message: string)                      // core.setFailed
    | SetOutput(name: string, value: bool)            // core.setOutput

  /** The two calls that end a run: a failure report or the published output. */
  predicate IsTerminal(e: Effect) {
    e.SetFailed? || e.SetOutput?
  }

  /** No effect of `log` ends a run. */
  predicate Quiet(log: seq<Effect>) {
    forall i :: 0 <= i < |log| ==> !IsTerminal(log[i])
  }

  /** `log` ends with `last`, and nothing before it ends a run. */
  predicate EndsWith(log: seq<Effect>, last: Effect) {
    |log| > 0 && log[|log| - 1] == last && Quiet(log[..|log| - 1])
  }

  /** Effects that end no run, put before a log that ends once, keep it ending once. */
  lemma QuietPrefix(a: seq<Effect>, b: seq<Effect>, last: Effect)
    requires Quiet(a) && EndsWith(b, last)
    ensures EndsWith(a + b, last)
  {
    assert (a + b)[..|a + b| - 1] == a + b[..|b| - 1];
  }

  /** Two logs that end no run concatenate to one that ends no run. */
  lemma QuietConcat(a: seq<Effect>, b: seq<Effect>)
    requires Quiet(a) && Quiet(b)
    ensures Quiet(a + b)
  {
    forall i | 0 <= i < |a + b|
      ensures !IsTerminal((a + b)[i])
    {
      if i >= |a| {
        assert (a + b)[i] == b[i - |a|];
      }
    }
  }

  /** The text the action reports for a thrown value (main.ts lines 42-43, 66-67, 120). */
  function ThrownText(e: Thrown): string {
    match e
    case ErrorInstance(message, _) => message
    case NonError(json) => json
  }

  /** The kinds of text an effect log can be projected on. */
  datatype Kind = Reads | Debugs | Warnings | Errors

  /** The text `e` contributes to the projection on `k`: none, or one string. */
  function TextOf(e: Effect, k: Kind): (r: seq<string>)
    ensures |r| <= 1
  {
    match e
    case ReadFile(p) => if k == Reads then [p] else []
    case Debug(m) => if k == Debugs then [m] else []
    case Warning(m) => if k == Warnings then [m] else []
    case ErrorRecord(m) => if k == Errors then [m] else []
    case _ => []
  }

  /** The texts of kind `k` in `log`, in log order. */
  function Texts(log: seq<Effect>, k: Kind): seq<string>
    decreases |log|
  {
    if log == [] then [] else Texts(log[..|log| - 1], k) + TextOf(log[|log| - 1], k)
  }

  /** Projection distributes over concatenation of logs. */
  lemma {:induction false} TextsAppend(a: seq<Effect>, b: seq<Effect>, k: Kind)
    ensures Texts(a + b, k) == Texts(a, k) + Texts(b, k)
    decreases |b|
  {
    if b == [] {
      assert a + b == a;
    } else {
      var b' := b[..|b| - 1];
      assert (a + b)[..|a + b| - 1] == a + b';
      assert (a + b)[|a + b| - 1] == b[|b| - 1];
      TextsAppend(a, b', k);
    }
  }

  /** A one-effect log projects to that effect's text. */
  lemma TextsSingleton(e: Effect, k: Kind)
    ensures Texts([e], k) == TextOf(e, k)
  {
    assert [e][..0] == [];
  }

  /** A log without effects of kind `k` projects to nothing. */
  lemma {:induction false} TextsNone(log: seq<Effect>, k: Kind)
    requires forall i :: 0 <= i < |log| ==> TextOf(log[i], k) == []
    ensures Texts(log, k) == []
    decreases |log|
  {
    if log != [] {
      TextsNone(log[..|log| - 1], k);
    }
  }

  /** The decimal digit `d` as a character. */
  function DigitChar(d: nat): (c: char)
    requires d < 10
    ensures '0' <= c <= '9' && c as int - '0' as int == d
  {
    (d + '0' as int) as char
  }

  /** Whether `s` is a non-empty string of decimal digits. */
  predicate IsDigits(s: string) {
    |s| > 0 && forall i :: 0 <= i < |s| ==> '0' <= s[i] <= '9'
  }

  /** The decimal notation of `n`, which is how a JavaScript template literal prints an integer below 10^21. */
  function NatDecimal(n: nat): (s: string)
    ensures IsDigits(s)
    ensures |s| > 1 ==> s[0] != '0'
    decreases n
  {
    if n < 10 then [DigitChar(n)] else NatDecimal(n / 10) + [DigitChar(n % 10)]
  }

  /** The number a string of decimal digits denotes. */
  function DecimalValue(s: string): nat
    requires IsDigits(s) || s == []
    decreases |s|
  {
    if s == [] then 0
    else DecimalValue(s[..|s| - 1]) * 10 + (s[|s| - 1] as int - '0' as int)
  }

  /** Reading back the notation of `n` gives `n`: no two numbers print alike. */
  lemma {:induction false} NatDecimalRoundTrip(n: nat)
    ensures DecimalValue(NatDecimal(n)) == n
    decreases n
  {
    var s := NatDecimal(n);
    if n >= 10 {
      NatDecimalRoundTrip(n / 10);
      assert s[..|s| - 1] == NatDecimal(n / 10);
    }
  }

  /** The decimal notation of an integer, with a leading `-` when negative. */
  function IntDecimal(n: int): string {
    if n < 0 then "-" + NatDecimal(-n) else NatDecimal(n)
  }
}
