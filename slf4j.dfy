/** The SLF4J `Logger` as the interceptor uses it: two level checks and two ways to log a line. */
module Slf4j {
  import Okio

  datatype Level = INFO | DEBUG

  /** A formatted line, or a body's text as decoded by its charset. */
  datatype Message = Text(s: string) | Body(text: Okio.DecodedText)

  datatype LogCall = LogCall(level: Level, message: Message)

  /**
   * A logger with fixed `isDebugEnabled()` and `isInfoEnabled()` answers that
   * records every `info`/`debug` call in order. Placeholders are filled in
   * before the call; dropping calls below the configured level is the logging
   * back end's business.
   */
  class Logger {
    const name: string
    const debugEnabled: bool
    const infoEnabled: bool
    var calls: seq<LogCall>

    constructor (name: string, debugEnabled: bool, infoEnabled: bool)
      ensures this.name == name && this.debugEnabled == debugEnabled && this.infoEnabled == infoEnabled
      ensures calls == []
    {
      this.name := name;
      this.debugEnabled := debugEnabled;
      this.infoEnabled := infoEnabled;
      calls := [];
    }

    method Info(line: string)
      modifies this
      ensures calls == old(calls) + [LogCall(INFO, Text(line))]
    {
      calls := calls + [LogCall(INFO, Text(line))];
    }

    method Debug(message: Message)
      modifies this
      ensures calls == old(calls) + [LogCall(DEBUG, message)]
    {
      calls := calls + [LogCall(DEBUG, message)];
    }
  }
}
