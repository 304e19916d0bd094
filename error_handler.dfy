/** Error classification and the per-context error counter of the client's
    error handler. The status classes follow the client (4xx) and server
    (5xx) error classes of sections 15.5 and 15.6 of RFC 9110. */
module ErrorHandler {
  import opened Util
  import opened WindowCounter

  datatype ErrorType = Network | Authentication | Authorization | Validation | Server | Unknown

  /** `getErrorTypeByStatus`: the tests run in source order, so every status
      of 500 and above is a server error before 401 and 403 are looked at. */
  function ErrorTypeByStatus(status: int): (t: ErrorType)
    ensures t == Server <==> status >= 500
    ensures t == Authentication <==> status == 401
    ensures t == Authorization <==> status == 403
    ensures t == Validation <==> 400 <= status < 500 && status != 401 && status != 403
    ensures t == Unknown <==> status < 400
    ensures t != Network
  {
    if status >= 500 then Server
    else if status == 401 then Authentication
    else if status == 403 then Authorization
    else if status >= 400 && status < 500 then Validation
    else Unknown
  }

  /** Only a lost connection and a server-side failure are worth retrying. */
  predicate IsRetryableError(t: ErrorType): (r: bool)
    ensures !r <==> t in {Authentication, Authorization, Validation, Unknown}
  {
    t == Network || t == Server
  }

  /** A response error is retryable exactly when its status is in the server
      error class. */
  lemma RetryableIffServerStatus(status: int)
    ensures IsRetryableError(ErrorTypeByStatus(status)) <==> status >= 500
  {
  }

  /** `ERROR_MESSAGES`: one user-facing text per error type, none empty. */
  function ErrorMessage(t: ErrorType): (m: string)
    ensures |m| > 0
  {
    match t
    case Network => "Проблемы с подключением к интернету. Проверьте соединение."
    case Authentication => "Ошибка аутентификации. Попробуйте перезапустить приложение."
    case Authorization => "У вас нет прав для выполнения этого действия."
    case Validation => "Некорректные данные. Проверьте введенную информацию."
    case Server => "Временные проблемы на сервере. Попробуйте позже."
    case Unknown => "Произошла неожиданная ошибка. Попробуйте еще раз."
  }

  datatype AppError = AppError(errorType: ErrorType, message: string, statusCode: Option<int>)

  /** The `error.response` branch of `handleApiError`: the type comes from the
      status, and the server's own text wins over the stock one when it is
      non-empty. */
  function ResponseError(status: int, serverMessage: string): (e: AppError)
    ensures e.errorType == ErrorTypeByStatus(status)
    ensures e.statusCode == Some(status)
    ensures |e.message| > 0
    ensures serverMessage != "" ==> e.message == serverMessage
    ensures serverMessage == "" ==> e.message == ErrorMessage(e.errorType)
  {
    var t := ErrorTypeByStatus(status);
    AppError(t, if serverMessage != "" then serverMessage else ErrorMessage(t), Some(status))
  }

  /** More errors than this in one context and one window raise the warning. */
  const DdosThreshold: int := 50

  /** Whether `handle(error, context)` at `now` logs the possible-attack
      warning: the count it found was above the threshold. */
  predicate WarnsOf(s: CounterState, context: string, now: int) {
    CountOf(Renewed(s, now).counts, context) > DdosThreshold
  }

  /** Starting from an empty count, the warning first fires on the
      fifty-second error of a window and never before. */
  lemma WarningNeedsManyErrors(s: CounterState, context: string, times: seq<int>, now: int)
    requires CountOf(s.counts, context) == 0
    requires forall i :: 0 <= i < |times| ==> times[i] <= s.resetTime
    requires now <= s.resetTime
    ensures WarnsOf(CountedAll(s, context, times), context, now) <==> |times| > DdosThreshold
  {
    CountWithinWindow(s, context, times);
  }

  /** The `errorHandler` singleton: the counts per context and the end of the
      current window. */
  class ErrorCounter {
    var errorCounts: map<string, nat>
    var resetTime: int

    function State(): CounterState
      reads this
    {
      CounterState(errorCounts, resetTime)
    }

    /** The counter as created at time `now`, the first window ending a minute later. */
    constructor (now: int)
      ensures State() == CounterState(map[], now + WindowMs)
    {
      errorCounts := map[];
      resetTime := now + WindowMs;
    }

    /** `handle(error, context)` at time `now`: renews the window when it has
        passed, counts the error, and reports whether the warning is logged. */
    method Handle(context: string, now: int) returns (ddosWarning: bool)
      modifies this
      ensures State() == Counted(old(State()), context, now)
      ensures ddosWarning == WarnsOf(old(State()), context, now)
    {
      if now > resetTime {
        errorCounts := map[];
        resetTime := now + WindowMs;
      }
      var count := if context in errorCounts then errorCounts[context] else 0;
      errorCounts := errorCounts[context := count + 1];
      ddosWarning := count > DdosThreshold;
    }
  }
}
