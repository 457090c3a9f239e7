/** RTSPStreamConfig and the stream registry RTSPStream (rtsp-streams.cpp). */
module RtspStreams {
  import opened Text

  /** A copy of an RTSPStreamConfig object. */
  datatype Stream = Stream(pipeline: string, udpPort: string, tcpPort: string, rtspUrl: string,
                           testStream: bool, testStreamSrc: string, strErr: string)

  const FRESH := Stream("", "", "", "", false, "", "")

  predicate IsValid(s: Stream) {
    s.pipeline != "" && s.udpPort != "" && s.tcpPort != "" && s.rtspUrl != ""
  }

  class RTSPStreamConfig {
    var pipeline: string
    var udpPort: string
    var tcpPort: string
    var rtspUrl: string
    var testStream: bool
    var testStreamSrc: string
    var strErr: string

    function Value(): Stream
      reads this
    {
      Stream(pipeline, udpPort, tcpPort, rtspUrl, testStream, testStreamSrc, strErr)
    }

    constructor ()
      ensures Value() == FRESH
    {
      pipeline, udpPort, tcpPort, rtspUrl, testStream := "", "", "", "", false;
      testStreamSrc, strErr := "", "";
    }

    method SetPipeline(v: Option<string>) returns (ok: bool)
      modifies this
      ensures ok == v.Some?
      ensures Value() == if ok then old(Value()).(pipeline := v.value) else old(Value()).(strErr := "pipeline is empty")
    {
      if v.None? {
        strErr := "pipeline is empty";
        return false;
      }
      pipeline := v.value;
      return true;
    }

    method SetUdpPort(v: Option<string>) returns (ok: bool)
      modifies this
      ensures ok == v.Some?
      ensures Value() == if ok then old(Value()).(udpPort := v.value) else old(Value()).(strErr := "udpPort is empty")
    {
      if v.None? {
        strErr := "udpPort is empty";
        return false;
      }
      udpPort := v.value;
      return true;
    }

    method SetTcpPort(v: Option<string>) returns (ok: bool)
      modifies this
      ensures ok == v.Some?
      ensures Value() == if ok then old(Value()).(tcpPort := v.value) else old(Value()).(strErr := "tcpPort is empty")
    {
      if v.None? {
        strErr := "tcpPort is empty";
        return false;
      }
      tcpPort := v.value;
      return true;
    }

    method SetRtspUrl(v: Option<string>) returns (ok: bool)
      modifies this
      ensures ok == v.Some?
      ensures Value() == if ok then old(Value()).(rtspUrl := v.value) else old(Value()).(strErr := "rtspUrl is empty")
    {
      if v.None? {
        strErr := "rtspUrl is empty";
        return false;
      }
      rtspUrl := v.value;
      return true;
    }

    method SetTestStream(v: bool)
      modifies this
      ensures Value() == old(Value()).(testStream := v)
    {
      testStream := v;
    }

    method SetTestStreamSrc(v: Option<string>) returns (ok: bool)
      modifies this
      ensures ok == v.Some?
      ensures Value() == if ok then old(Value()).(testStreamSrc := v.value)
                         else old(Value()).(strErr := "testStreamSrc is empty")
    {
      if v.None? {
        strErr := "testStreamSrc is empty";
        return false;
      }
      testStreamSrc := v.value;
      return true;
    }

    /** clear() leaves testStreamSrc and the error text as they are. */
    method Clear()
      modifies this
      ensures Value() == FRESH.(testStreamSrc := old(testStreamSrc), strErr := old(strErr))
    {
      pipeline, udpPort, tcpPort, rtspUrl, testStream := "", "", "", "", false;
    }
  }

  class RTSPStream {
    var streams: map<string, Stream>
    var strErr: string

    constructor ()
      ensures streams == map[] && strErr == ""
    {
      streams, strErr := map[], "";
    }

    method AddStream(s: Stream) returns (ok: bool)
      modifies this
      ensures ok <==> s.pipeline != "" && s.udpPort != "" && s.tcpPort != "" && s.rtspUrl != ""
                      && s.rtspUrl !in old(streams)
      ensures streams == if ok then old(streams)[s.rtspUrl := s] else old(streams)
      ensures strErr == if ok then old(strErr)
                        else if !IsValid(s) then "stream has unset parameters"
                        else "stream: " + s.rtspUrl + " already exists"
    {
      if !IsValid(s) {
        strErr := "stream has unset parameters";
        return false;
      }
      if s.rtspUrl in streams {
        strErr := "stream: " + s.rtspUrl + " already exists";
        return false;
      }
      streams := streams[s.rtspUrl := s];
      return true;
    }

    function GetStream(name: string): Option<Stream>
      reads this
    {
      if name in streams then Some(streams[name]) else None
    }
  }
}
