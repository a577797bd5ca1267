/** The writer objects of compress/compress.go, httpx/compress.go and middleware/compress.go, proved
    against the steps in module CompressWriters. */
module CompressObjects {
  import opened GoInts
  import opened Responses
  import opened Wrappers
  import W = CompressWriters

  class CompressWriter {
    const setting: W.Setting
    var resp: Response
    var buf: seq<byte>
    var headerSent: bool
    var shouldCompress: bool

    ghost function View(): W.Writer
      reads this
    {
      W.Writer(resp, buf, headerSent, shouldCompress)
    }

    constructor (setting: W.Setting, preset: Option<Encoding>)
      ensures View() == W.Start(preset) && this.setting == setting
    {
      this.setting, resp, buf, headerSent, shouldCompress := setting, Response(preset, None, []), [], false, false;
    }

    method Write(b: seq<byte>)
      modifies this
      ensures View() == W.Step(setting, old(View()), Act.Write(b))
    {
      if !headerSent {
        buf := buf + b;
        if |buf| < setting.minSize {
          return;
        }
        FlushNow();
        return;
      }
      if shouldCompress {
        resp := Put(resp, AllPacked(b, setting.encoding));
      } else {
        resp := Put(resp, AllPlain(b));
      }
    }

    method FlushNow()
      modifies this
      ensures View() == W.Flush(setting, old(View()))
    {
      if headerSent {
        return;
      }
      headerSent := true;
      if !setting.compressible(buf) || |buf| < setting.minSize {
        resp := Put(resp, if shouldCompress then AllPacked(buf, setting.encoding) else AllPlain(buf));
        buf := [];
        return;
      }
      resp := resp.(header := Some(setting.encoding));
      shouldCompress := true;
      resp := Put(resp, AllPacked(buf, setting.encoding));
      buf := [];
    }

    method WriteHeader(code: Status)
      modifies this
      ensures View() == W.Step(setting, old(View()), Act.WriteHeader(code))
    {
      if !headerSent && |buf| > 0 {
        FlushNow();
      }
      resp := SendHeader(resp, code);
    }

    method Close()
      modifies this
      ensures View() == W.Close(setting, old(View()))
    {
      if !headerSent && |buf| > 0 {
        FlushNow();
      } else if !headerSent {
        headerSent := true;
      }
      if shouldCompress {
        resp := Put(resp, [End(setting.encoding)]);
      }
    }
  }

  class HttpxGzipWriter {
    const setting: W.Setting
    var resp: Response
    var buf: seq<byte>
    var hijacked: bool
    var wroteGzip: bool

    ghost predicate Valid()
      reads this
    {
      !(hijacked && wroteGzip)
    }

    ghost function View(): W.Writer
      reads this
    {
      W.Writer(resp, buf, hijacked || wroteGzip, wroteGzip)
    }

    constructor (setting: W.Setting, preset: Option<Encoding>)
      ensures Valid() && View() == W.Start(preset) && this.setting == setting
    {
      this.setting, resp, buf, hijacked, wroteGzip := setting, Response(preset, None, []), [], false, false;
    }

    method WriteHeader(code: Status)
      requires Valid()
      modifies this
      ensures Valid() && View() == W.HttpxStep(setting, old(View()), Act.WriteHeader(code))
    {
      resp := SendHeader(resp, code);
    }

    method Write(b: seq<byte>)
      requires Valid()
      modifies this
      ensures Valid() && View() == W.HttpxStep(setting, old(View()), Act.Write(b))
    {
      if hijacked {
        resp := Put(resp, AllPlain(b));
        return;
      }
      if wroteGzip {
        resp := Put(resp, AllPacked(b, setting.encoding));
        return;
      }
      buf := buf + b;
      if |buf| >= setting.minSize {
        if resp.header == None && setting.compressible(buf) {
          resp := resp.(header := Some(setting.encoding));
          wroteGzip := true;
          resp := Put(resp, AllPacked(buf, setting.encoding));
          buf := [];
          return;
        }
        hijacked := true;
        resp := Put(resp, AllPlain(buf));
        buf := [];
      }
    }

    method Flush()
      requires Valid()
      modifies this
      ensures Valid() && View() == W.HttpxFlush(setting, old(View()))
    {
      if wroteGzip {
        resp := Put(resp, [End(setting.encoding)]);
        return;
      }
      if |buf| > 0 {
        resp := Put(resp, AllPlain(buf));
        buf := [];
      }
    }
  }

  class DeferredGzipWriter {
    const setting: W.Setting
    const preset: Option<Encoding>
    var resp: Response
    var buf: seq<byte>
    var statusCode: W.Remembered
    var written: bool

    ghost function View(): W.Deferred
      reads this
    {
      W.Deferred(buf, statusCode)
    }

    constructor (setting: W.Setting, preset: Option<Encoding>)
      ensures View() == W.DeferRun([]) && !written && resp == Response(preset, None, [])
      ensures this.setting == setting && this.preset == preset
    {
      this.setting, this.preset, resp, buf, statusCode, written := setting, preset, Response(preset, None, []), [], 0, false;
    }

    method WriteHeader(code: Status)
      modifies this`statusCode
      ensures View() == W.DeferStep(old(View()), Act.WriteHeader(code))
    {
      statusCode := code;
    }

    method Write(b: seq<byte>)
      modifies this`buf
      ensures View() == W.DeferStep(old(View()), Act.Write(b))
    {
      buf := buf + b;
    }

    /** Sends everything once; a second call does nothing. */
    method Flush()
      requires !written ==> resp == Response(preset, None, [])
      modifies this
      ensures written && buf == old(buf)
      ensures resp == if old(written) then old(resp) else W.DeferFlush(setting, preset, old(View()))
    {
      if written {
        return;
      }
      written := true;
      var pack := |buf| > setting.minSize && setting.compressible(buf);
      if pack {
        resp := resp.(header := Some(setting.encoding));
      }
      if statusCode == 0 {
        statusCode := 200;
      }
      resp := SendHeader(resp, statusCode);
      if pack {
        resp := Put(resp, AllPacked(buf, setting.encoding));
        resp := Put(resp, [End(setting.encoding)]);
      } else {
        resp := Put(resp, AllPlain(buf));
      }
    }
  }
}
